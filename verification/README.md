# Verified models of libxtcommon's algorithms

This project models the hard logic of libxtcommon, a C utility library, in Dafny and proves what the
library's documentation and the standards it implements promise. Code that works in place stays in place:
sorting routines overwrite arrays, the hash map relinks its bucket nodes, contexts, rings and buffers are
updated field by field, and each such method is proved against a specification whose own properties are
lemmas.

| file | what it covers |
|---|---|
| Ordering, QuickSort, HeapSort, RadixPass, RadixSort, SignedRadix, SimpleSorts, SortApi | the sorting routines and their entry points; the per-type copies are one generic routine |
| MessagePadding, Md5Rounds, Md5Context, Sha256Rounds, Sha512Rounds, ShaContext, Hash | MD5, SHA-256 and SHA-512 from the round macros to the streaming interface |
| Md5Vector, Sha256Vector, Sha512Vector, PublishedDigests | the published digests of "abc" as results of the same functions and tables |
| HashChains, HashGrowth, HashLayout, Hashmap, HashmapRuns | the chained hash map as a refinement of a finite map and of a layout of its keys, with growth, rehashing, iteration and whole runs |
| SuspendProtocol | thread suspension as a step system with any number of other threads |
| Blowfish, BlowfishModes | the Feistel cipher for arbitrary boxes and subkeys, ECB and in-place CBC |
| WordBits, SerpentBoxes, Serpent | the bit-sliced boxes, mixing, rounds and block loops for an arbitrary expanded key |
| Crc32 | the table form of CRC-32 against the bitwise form |
| Base64, Bcrypt | the bcrypt alphabet encoding, salt generation, parsing and printing of password hashes |
| Queue | the ring-buffer queue against a plain sequence |
| Math | rounding up to a power of two |

`dafny verify dfyconfig.toml` checks all of it. Bit-level facts are stated on single words, with the word
operations wrapped in functions, and combined with those functions hidden; that keeps the solver away from
bit-blasting whole algorithms.

## Where the code and its documentation differ

The model follows the code.

- `xtMathNextPow2`: the header (include/xt/math.h:60) announces 1 for the argument 0; the code returns 0
  (Math.NextPow2).
- Radix sort: the unsigned copy is right exactly while the maximum is below 4135583744 and divides by zero
  above; the divisor of the signed copy stays in range exactly for a maximum below 10^9
  (RadixSort.DivisorReachesZero, RadixSort.SignedProductFits).
- Signed radix sort of negative values: a pass counts a negative element in a cell before the counters unless
  its digit there is 0, so every pass stays inside exactly if each negative element is a multiple of 10^p, p
  being the number of passes (SignedRadix.IndicesInside); [-1, 5] leaves the counters. Where it stays inside it
  sorts only lists whose non-positive elements are in order already, and reports success for the others as well
  (SignedRadix.SortedExactly, SortApi.SilentlyUnsorted).
- Queue growth: the header (include/xt/queue.h:73-75) describes a lasting policy; every growth resets it to
  -2 (Queue.PolicyKept). SetCapacity copies from front, which is in order only for an empty or full queue
  (Queue.CopyIsInOrder).
- `xtBase64Encode` writes its NUL one byte past a buffer that has exactly the length of the text; Encode
  states this as the precondition that such a buffer has one byte more (Base64.OneByteOver).
- `xtBase64Decode` reports success for any text. In `xtBcrypt` this lets bytes of an uninitialised buffer
  into the hash unless the salt text is clean (Bcrypt.HashUniqueExactly); the fixed point holds all the same.
- `xtBcrypt` reads a salt shorter than its header past its end. Bcrypt.ReadableExactly says for which strings,
  Bcrypt.ShortSaltsOverrun gives three.
- `xtBcrypt` says that "ab" should not yield the same as "abab". That holds with the minor version only, and only as
  far as the cipher reads the key (Bcrypt.KeyBytesAgree, Bcrypt.RepeatedKeyCollides, Bcrypt.LongKeysCollide).
- `xtBcryptGetRounds` is documented to give the number of rounds and returns its logarithm.
- `xtHashmapSetCapacity` aborts on an empty map, and it aborts when the new table outgrows the request and the
  iterator is at a bucket whose first key then moves to the front (Hashmap.Strands). xtHashmapAdd inherits that:
  Hashmap.LoweredLimitAborts ends the process with five ordinary calls. HashLayout.DiesExactly says when it
  happens, for every table; HashGrowth.RoomKept gives growth policies under which it never does.

## Model

| member | source | states |
|---|---|---|
| `Ordering.BeforeIsStrictWeakOrder` | src/generic/sort.c:405-437 | a total-preorder comparison callback, in either direction, gives the strict weak order that every routine compares with |
| `Ordering.Swap` | src/generic/sort.c:24-42 | exchanging two cells of the range being sorted keeps it a permutation of the original and touches no other cell |
| `Ordering.SettledKept` | src/generic/sort.c:44-111 | a finished tail stays finished when the cells before it are rearranged among themselves |
| `Ordering.SortedIsUnique` | src/generic/sort.c:614-641 | where ties are equalities a multiset has exactly one sorted arrangement |
| `Ordering.ExchangeStable` | src/generic/sort.c:44-62 | exchanging neighbours that are out of order moves no element past one it ties with |
| `Ordering.StableIsUnique` | src/generic/sort.c:672-691 | whatever ties in it, a list has exactly one stable and sorted arrangement |
| `QuickSort.ScanUp` | src/generic/sort.c:325-343 | the left scan needs no bound test: a sentinel at or after it stops it inside the range, and everything it passed belongs left |
| `QuickSort.ScanDown` | src/generic/sort.c:325-343 | the right scan likewise never runs below the range |
| `QuickSort.Partition` | src/generic/sort.c:405-437 | the Hoare partition stays inside [low, high], permutes it, leaves left cells not above and right cells not below the pivot, cells in the gap equal to it, and both ranges strictly smaller |
| `QuickSort.SidesMeet` | src/generic/sort.c:325-343 | two sorted sides around a gap that ties with the pivot make one sorted range |
| `QuickSort.SideDone` | src/generic/sort.c:325-343 | sorting one side keeps what is known of the other and of the whole range |
| `QuickSort.Sort` | src/generic/sort.c:325-471 | for every non-empty range and every strict weak order the recursion ends and leaves [low, high] sorted, a permutation, and all other cells untouched |
| `HeapSort.HoleMoves` | src/generic/sort.c:117-131 | moving the larger child up into the hole keeps the heap and keeps a permutation once the held value is put back |
| `HeapSort.HoleFilled` | src/generic/sort.c:117-131 | putting the held value into the hole where the walk stops restores the heap |
| `HeapSort.Percolate` | src/generic/sort.c:117-147 | percolating turns a heap on [low + 1, high) into a heap on [low, high), as a permutation of that range only |
| `HeapSort.HeapTop` | src/generic/sort.c:149-166 | no element of a heap is above its root |
| `HeapSort.TopExtracted` | src/generic/sort.c:149-166 | swapping the root behind the heap leaves a heap with a hole at the root and one more settled cell |
| `HeapSort.Sort` | src/generic/sort.c:149-278 | build and extract give a sorted permutation for every count of at least 1, ascending and descending |
| `RadixPass.SlotHolds` | src/generic/sort.c:550-612 | every element has its own slot in the stable grouping by counting index, inside the array |
| `RadixPass.GroupedPermutes` | src/generic/sort.c:550-612 | where every counting index is one of the ten, the stable grouping is a permutation of its input |
| `RadixPass.GroupedOrdered` | src/generic/sort.c:550-612 | after grouping, digits ascend and elements with equal digits keep their previous order |
| `RadixPass.GroupedTies` | src/generic/sort.c:550-612 | a pass moves no element past one that it counts alike |
| `RadixPass.CountDigits` | src/generic/sort.c:550-612 | the counting loop gives the size of every digit group |
| `RadixPass.Accumulate` | src/generic/sort.c:550-612 | the running totals are the ends of the groups |
| `RadixPass.ScatterOne` | src/generic/sort.c:550-612 | placing one element from the back fills the last free cell of its group with the element the stable grouping has there |
| `RadixPass.Scatter` | src/generic/sort.c:550-612 | the backward scatter stays inside both arrays and writes exactly the stable grouping |
| `RadixPass.Pass` | src/generic/sort.c:550-612 | one counting pass in place is the stable grouping of the array by the index it looks at, in either copy |
| `RadixSort.ExpValue` | src/generic/sort.c:582-612 | the wrapping divisor after each of the first 32 multiplications |
| `RadixSort.DivisorReachesZero` | src/generic/sort.c:582-612 | the loop test reaches a division by zero if and only if the maximum is at least 4135583744; below that some divisor ends the loop |
| `RadixSort.PassRefines` | src/generic/sort.c:582-612 | each pass turns the order of the earlier passes into the next one, including the passes whose divisor has wrapped |
| `RadixSort.PassOrders` | src/generic/sort.c:582-612 | the array after a pass is ordered by the next rank: value modulo 10^k while the divisor is a true power of ten |
| `RadixSort.RefineMod` | src/generic/sort.c:582-612 | ordering by one more digit, ties in the previous order, is ordering by the value modulo ten times as much |
| `RadixSort.RefineTwice` | src/generic/sort.c:582-612 | the pass that a wrapped divisor disturbs is repaired by the following one |
| `RadixSort.OnePassMore` | src/generic/sort.c:582-612 | the loop invariant survives a pass and the next divisor is not zero |
| `RadixSort.LoopEndSorted` | src/generic/sort.c:582-612 | when the divisor exceeds the maximum the array is sorted and a permutation of the input |
| `RadixSort.SortAscending` | src/generic/sort.c:582-612 | the pass loop ends and sorts every list of values below 4135583744 |
| `RadixSort.Sort` | src/generic/sort.c:548-612 | sorted in the requested direction and a permutation; the descending result is the reversed ascending one |
| `RadixPass.Reverse` | src/generic/sort.c:574-580 | the descending end writes the sorted array back to front, which is a permutation of it |
| `RadixSort.SignedProductFits` | src/generic/sort.c:550-580 | in the signed copy the divisor product stays inside int on every pass if and only if the maximum is below 10^9 |
| `SignedRadix.PassRuns` | src/generic/sort.c:550-580 | the signed loop makes as many passes as a positive maximum has digits |
| `SignedRadix.DivisionInC` | src/generic/sort.c:562-571 | quotient and remainder make up the dividend and the remainder has its sign, as C defines them |
| `SignedRadix.ZeroDigits` | src/generic/sort.c:550-580 | a number ends in p zeros if and only if it is a multiple of 10^p |
| `SignedRadix.CountedExactly` | src/generic/sort.c:559-571 | with C division towards zero, the numbers whose counting indices leave the ten counters within p passes are exactly the negative ones that are no multiples of 10^p |
| `SignedRadix.IndicesInside` | src/generic/sort.c:559-571 | no counting index of any pass over a list leaves the counters if and only if every negative element is a multiple of 10^p, p being the number of passes |
| `SignedRadix.ProductFits` | src/generic/sort.c:550-580 | below 10^9 the divisor product stays inside int |
| `SignedRadix.OnePass` | src/generic/sort.c:559-571 | inside the counters a pass is the stable grouping by the digits of the values clamped at 0, and orders one digit more |
| `SignedRadix.SortAscending` | src/generic/sort.c:550-580 | inside the counters the loop gives the stable sort by the clamped values |
| `SignedRadix.Sort` | src/generic/sort.c:550-580 | the same in the requested direction |
| `SignedRadix.ResultIsUnique` | src/generic/sort.c:550-580 | which determines the resulting list |
| `SignedRadix.SortedExactly` | src/generic/sort.c:550-580 | and the list is sorted if and only if its non-positive elements were given in ascending order |
| `SignedRadix.NaturalsAreSorted` | src/generic/sort.c:550-580 | as they are in every list of natural numbers |
| `SignedRadix.NothingPositive` | src/generic/sort.c:550-580 | a list without a positive element comes back as it was |
| `SignedRadix.BelowTheCounters` | src/generic/sort.c:562-563 | for [-1, 5] the source counts in cell -1; [-10, 5] stays inside |
| `SimpleSorts.BubbleStep` | src/generic/sort.c:44-111 | a step of the bubble pass carries the largest value seen so far and remembers the last swap |
| `SimpleSorts.BubbleSort` | src/generic/sort.c:44-111 | bubble sort that shrinks to the last swap sorts every list, including the empty one, and is stable: elements that tie keep their order |
| `SimpleSorts.SinkEnd` | src/generic/sort.c:280-323 | an element that has sunk to its place extends the sorted prefix |
| `SimpleSorts.InsertionSort` | src/generic/sort.c:280-323 | insertion sort sorts every list and is stable |
| `SimpleSorts.SelectStep` | src/generic/sort.c:473-546 | exchanging the smallest remaining element extends the final prefix |
| `SimpleSorts.SelectionSort` | src/generic/sort.c:473-546 | selection sort sorts every non-empty list |
| `SortApi.SortP` | src/generic/sort.c:672-691 | which arguments are refused, with nothing changed, and that every other call leaves the same elements with no neighbour the callback puts the other way round in the requested direction, stably with bubble and insertion sort |
| `SortApi.SortU` | src/generic/sort.c:614-641 | every algorithm of the enumeration sorts, an unknown one is refused |
| `SortApi.SortD` | src/generic/sort.c:643-670 | the same for int with the comparison sorts on every value; the radix sort on lists below 10^9 that stay inside its counters gives the stable sort by the values clamped at 0, which is sorted if and only if the non-positive elements were given in ascending order |
| `SortApi.SilentlyUnsorted` | src/generic/sort.c:643-670 | the radix sort of -1 and -5 reports success and leaves them in this order |
| `SortApi.AlgorithmsAgree` | src/generic/sort.c:614-641 | the choice of the algorithm cannot be seen in a sorted result |
| `SortApi.StableAlgorithmsAgree` | src/generic/sort.c:672-691 | bubble and insertion sort agree on any elements, however the callback ties them |
| `SortApi.DescendingIsReversed` | src/generic/sort.c:582-641 | a descending sort is the reverse of an ascending one, whichever algorithms made them |
| `Md5Rounds.MacrosAgree` | src/generic/hash/hash.c:23-26 | the optimised F and G macros, and H and I, are the auxiliary functions of section 3.4 of RFC 1321 |
| `Md5Rounds.StepIsOperation` | src/generic/hash/hash.c:34-37 | a macro call with the word, constant and shift of operation n performs operation n |
| `Md5Rounds.FirstRound` | src/generic/hash/hash.c:78-93 | the sixteen calls of round 1 with rotating register names are operations 1 to 16 |
| `Md5Rounds.SecondRound` | src/generic/hash/hash.c:96-111 | round 2: operations 17 to 32, words (5n + 1) mod 16 |
| `Md5Rounds.ThirdRound` | src/generic/hash/hash.c:114-129 | round 3: operations 33 to 48, words (3n + 5) mod 16 |
| `Md5Rounds.FourthRound` | src/generic/hash/hash.c:132-147 | round 4: operations 49 to 64, words 7n mod 16 |
| `Md5Rounds.Transform` | src/generic/hash/hash.c:53-158 | one turn of the transform loop is the block function of RFC 1321 |
| `Md5Rounds.StoreInjective` | src/generic/hash/hash.c:190-205 | the sixteen digest bytes hold the four registers: different registers are written differently |
| `Md5Vector.NextOperation` | src/generic/hash/hash.c:34-37 | an operation brings in one register and moves the others on |
| `Md5Vector.Compressed` | src/generic/hash/hash.c:53-158 | the chaining value after the only block of "abc" |
| `PublishedDigests.Md5OfAbc` | src/generic/hash/hash.c:160-206 | the MD5 digest of "abc" is the one of appendix A.5 of RFC 1321 |
| `Md5Context.LittleEndianJoin` | src/generic/hash/hash.c:178-186 | two little-endian words one after the other are the bytes of one double word |
| `Md5Context.CounterField` | src/generic/hash/hash.c:178-186 | the counters are the byte count modulo 2^61 and the eight length bytes are the low 64 bits of the bit count, for every message length |
| `Md5Context.CarryTest` | src/generic/hash/hash.c:224-228 | the comparison with the saved low counter detects the carry, for chunks of any length |
| `Md5Context.CounterStep` | src/generic/hash/hash.c:224-228 | updating the two counters adds the chunk length modulo 2^61 |
| `Md5Context.Context.constructor` | src/generic/hash/hash.c:208-217 | a new context stands for the empty message |
| `Md5Context.Context.Transform` | src/generic/hash/hash.c:53-158 | the do-while loop absorbs whole blocks in order |
| `Md5Context.Context.Count` | src/generic/hash/hash.c:224-228 | the counters follow the number of bytes |
| `Md5Context.Context.TopUp` | src/generic/hash/hash.c:232-243 | filling a started block absorbs exactly that block and leaves the rest of the chunk |
| `Md5Context.Context.Absorb` | src/generic/hash/hash.c:230-249 | absorbed blocks followed by the buffered bytes are the old ones followed by the chunk |
| `Md5Context.Context.Update` | src/generic/hash/hash.c:219-249 | an update appends its chunk to the message, however the message was split so far |
| `Md5Context.Context.MarkEnd` | src/generic/hash/hash.c:165-174 | the mark byte goes behind the buffered bytes, with a block of its own when fewer than eight bytes remain |
| `Md5Context.PaddedIs` | src/generic/hash/hash.c:160-188 | the one or two final blocks are the padding of sections 3.1 and 3.2 of RFC 1321 |
| `Md5Context.Context.Digest` | src/generic/hash/hash.c:160-206 | the digest is computed from the whole message padded as RFC 1321 prescribes |
| `Sha256Rounds.MacrosAgree` | src/generic/hash/hash.c:308-309 | the optimised Ch and Maj macros are the functions of section 4.1.2 of FIPS 180-4 |
| `Sha256Rounds.RoundAndShift` | src/generic/hash/hash.c:317-370 | the round macro on two registers and the shift of the array are one round of section 6.2.2 of FIPS 180-4 |
| `Sha256Rounds.FillSchedule` | src/generic/hash/hash.c:328-370 | the message schedule, from big-endian words |
| `Sha256Rounds.RunRounds` | src/generic/hash/hash.c:328-370 | sixty-four loop turns are the sixty-four rounds |
| `Sha256Rounds.Transform` | src/generic/hash/hash.c:328-370 | the transform is the SHA-256 compression for every state and block |
| `Sha256Rounds.StoreInjective` | src/generic/hash/hash.c:403-406 | the digest bytes hold the eight registers: different registers are written differently |
| `Sha256Vector.WordAt` | src/generic/hash/hash.c:328-370 | every word of the schedule is loaded or made of four earlier ones |
| `Sha256Vector.Compressed` | src/generic/hash/hash.c:285-370 | with the tables of the source, the chaining value after the only block of "abc" |
| `PublishedDigests.Sha256OfAbc` | src/generic/hash/hash.c:285-406 | the SHA-256 digest of "abc" is the one published with FIPS 180-4 |
| `Sha512Rounds.MacrosAgree` | src/generic/hash/hash.c:510-511 | the optimised Ch and Maj macros are the functions of section 4.1.3 of FIPS 180-4 |
| `Sha512Rounds.RoundMacro` | src/generic/hash/hash.c:519-528 | a macro call is one round when its register names are read one place further on |
| `Sha512Rounds.EightMacros` | src/generic/hash/hash.c:530-569 | eight calls with rotated names bring every register back under its own name |
| `Sha512Rounds.FillSchedule` | src/generic/hash/hash.c:530-569 | the message schedule of eighty words |
| `Sha512Rounds.RunRounds` | src/generic/hash/hash.c:530-569 | ten turns of the eight-fold unrolled loop are the eighty rounds of section 6.4.2 of FIPS 180-4 |
| `Sha512Rounds.Transform` | src/generic/hash/hash.c:530-569 | the transform is the SHA-512 compression for every state and block |
| `Sha512Rounds.StoreInjective` | src/generic/hash/hash.c:603-606 | the digest bytes hold the eight registers: different registers are written differently |
| `Sha512Vector.WordAt` | src/generic/hash/hash.c:530-569 | every word of the schedule is loaded or made of four earlier ones |
| `Sha512Vector.Compressed` | src/generic/hash/hash.c:480-569 | with the tables of the source, the chaining value after the only block of "abc" |
| `PublishedDigests.Sha512OfAbc` | src/generic/hash/hash.c:480-606 | the SHA-512 digest of "abc" is the one published with FIPS 180-4 |
| `MessagePadding.FoldStep` | src/generic/hash/hash.c:423-448 | compressing one more block extends the fold over the message |
| `MessagePadding.FipsZeros256` | src/generic/hash/hash.c:372-407 | the zero filling of section 5.1.1 of FIPS 180-4 is the least that fits |
| `MessagePadding.FipsZeros512` | src/generic/hash/hash.c:571-607 | the zero filling of section 5.1.2 of FIPS 180-4 is the least that fits |
| `MessagePadding.BigEndianSplits` | src/generic/hash/hash.c:571-607 | a number written in more bytes starts with the bytes of its high part |
| `MessagePadding.ZeroBytes` | src/generic/hash/hash.c:571-607 | the bytes of a number are all zero exactly for the multiples of 256^n |
| `ShaContext.ChainStep` | src/generic/hash/hash.c:423-448 | state and bit length after one more block |
| `ShaContext.Context.constructor` | src/generic/hash/hash.c:409-421 | a new context stands for the empty message |
| `ShaContext.Context.Update` | src/generic/hash/hash.c:423-448 | an update appends its chunk to the message: compressed blocks are the fold, the buffer is the tail |
| `ShaContext.Context.AbsorbBlock` | src/generic/hash/hash.c:430-434 | a whole block that meets an empty buffer is compressed without being copied |
| `ShaContext.Context.Append` | src/generic/hash/hash.c:436-445 | bytes enter the buffer, and a full buffer is compressed |
| `ShaContext.Context.MarkEnd` | src/generic/hash/hash.c:376-397 | mark and zeros, with an extra block when the length field no longer fits |
| `ShaContext.TrailerIs` | src/generic/hash/hash.c:372-401 | the one or two final blocks are the message tail, mark, zeros and length field |
| `ShaContext.LengthField` | src/generic/hash/hash.c:380-400 | the length field is the bit length modulo 2^64 |
| `ShaContext.FieldFits` | src/generic/hash/hash.c:571-602 | eight zero bytes and a 64-bit length are the 128-bit length field if and only if its high half is zero |
| `ShaContext.PaddingIsFips` | src/generic/hash/hash.c:372-401 | the padding is the one of section 5.1.1 of FIPS 180-4 for SHA-256, and the one of section 5.1.2 for SHA-512 if and only if the bit length modulo 2^128 is below 2^64 |
| `ShaContext.Context.Digest` | src/generic/hash/hash.c:372-407 | the digest is the fold over the padded message, independent of how it was split |
| `Hash.XtHash.constructor` | src/generic/hash/hash.c:670-674 | a new object hashes the empty message with the chosen algorithm |
| `Hash.XtHash.Reset` | src/generic/hash/hash.c:676-692 | after a reset the object stands for the empty message again |
| `Hash.XtHash.Update` | src/generic/hash/hash.c:694-707 | an update appends its bytes, for all three algorithms |
| `Hash.XtHash.Digest` | src/generic/hash/hash.c:655-668 | the hash field receives the digest of everything fed in since the last reset |
| `Hash.DigestsAgree` | src/generic/hash/hash.c:655-668 | digests agree if and only if the chaining values after the padded messages do |
| `Hash.RunMd5` | src/generic/hash/hash.c:53-158 | the unrolled MD5 routine run over a padded message gives the fold of the standard block function |
| `Hash.RunSha256` | src/generic/hash/hash.c:328-370 | the same for the SHA-256 transform |
| `Hash.RunSha512` | src/generic/hash/hash.c:530-569 | the same for the SHA-512 transform |
| `Hash.DigestByRoutines` | src/generic/hash/hash.c:53-569 | running the routines on the padded message gives the digest that every split into updates gives |
| `Hash.HashChunks` | src/generic/hash/hash.c:655-707 | over a whole run only the joined bytes matter: any split of a message gives its standard digest |
| `HashChains.PresentInChain` | src/generic/collection/hashmap.c:100-117 | a key is in the map if and only if its home chain holds an equal key, so looking in one chain is enough |
| `HashChains.HomeIs` | src/generic/collection/hashmap.c:31-32 | the home chain is the remainder of the hash by the capacity |
| `HashChains.KeysDiffer` | src/generic/collection/hashmap.c:222-244 | no two entries of the table have equal keys |
| `HashChains.AddRepresents` | src/generic/collection/hashmap.c:31-46 | appending an absent key to its home chain is the map update |
| `HashChains.RemoveRepresents` | src/generic/collection/hashmap.c:222-244 | cutting an entry out of its chain removes exactly its key from the map |
| `HashChains.EntriesDiffer` | src/generic/collection/hashmap.c:154-214 | the iteration order contains no key twice |
| `HashChains.EntriesAreMap` | src/generic/collection/hashmap.c:154-214 | read in iteration order the table is the map, entry for entry |
| `HashChains.NextIsNew` | src/generic/collection/hashmap.c:276-282 | while rehashing, the next key is always absent from the new table |
| `HashChains.KeyVisitedFrom` | src/generic/collection/hashmap.c:290-298 | iterating from chain k on finds a key of the map if and only if its home chain is not before k |
| `HashChains.SkipEmpty` | src/generic/collection/hashmap.c:168-177 | skipping empty buckets skips no entry |
| `Hashmap.Hashmap.constructor` | src/generic/collection/hashmap.c:50-73 | a new table represents the empty map, with growth limit 0.75 and growth factor 1.5 |
| `Hashmap.Hashmap.Get` | src/generic/collection/hashmap.c:100-117 | the entry of an equal key with its value, and the error exactly when there is none |
| `Hashmap.Hashmap.WalkToEnd` | src/generic/collection/hashmap.c:32-43 | the walk stops at an equal key if there is one and at the tail otherwise |
| `Hashmap.Hashmap.Insert` | src/generic/collection/hashmap.c:23-47 | EEXIST with the map unchanged exactly for a present key; otherwise the map gains the pair and count grows by one |
| `Hashmap.Hashmap.WalkToKey` | src/generic/collection/hashmap.c:226-242 | the walk finds the entry of an equal key and its predecessor |
| `Hashmap.Hashmap.Unlink` | src/generic/collection/hashmap.c:232-237 | relinking removes one entry from one chain |
| `Hashmap.Hashmap.Remove` | src/generic/collection/hashmap.c:222-244 | ENOENT with nothing changed exactly for an absent key; otherwise exactly the equal key leaves the map and its home chain |
| `Hashmap.Hashmap.NextChain` | src/generic/collection/hashmap.c:168-177 | the next non-empty bucket, or the end of the table |
| `Hashmap.Hashmap.IteratorNext` | src/generic/collection/hashmap.c:154-179 | an iterator step yields the next entry of the iteration order |
| `Hashmap.Hashmap.IteratorStart` | src/generic/collection/hashmap.c:186-201 | starting yields the first entry, or reports the empty table |
| `Hashmap.Hashmap.Foreach` | src/generic/collection/hashmap.c:203-214 | each call takes the head off the entries still to come; at the end the iterator is ready to start again |
| `Hashmap.Hashmap.ForeachEnd` | src/generic/collection/hashmap.c:216-220 | afterwards all entries are still to come |
| `Hashmap.Hashmap.VisitAll` | src/generic/collection/hashmap.c:203-220 | a whole iteration returns true count times and yields the map, every pair exactly once |
| `Hashmap.Hashmap.Add` | src/generic/collection/hashmap.c:13-48 | over growth and insertion the map gains an absent key, refuses a present one, and refuses to grow exactly when the growth factor is below 1.0001; whether the process ends, the chains afterwards and the bucket of the iterator are exactly those of HashLayout.Added; while no rehash inside the rehash outgrows its request (HashGrowth.Steady), the process ends if and only if a map that must grow is empty or its iterator is stranded; the mutual recursion with SetCapacity ends because a rehash only adds to tables holding fewer entries |
| `Hashmap.Hashmap.AddNext` | src/generic/collection/hashmap.c:276-282 | rehashing the p-th entry makes a table of the first p + 1, or ends as HashLayout.Added says |
| `Hashmap.Hashmap.CopyInto` | src/generic/collection/hashmap.c:276-285 | the copy loop gives the new table the same map, with the chains of HashLayout.Refilled, or ends where that does; an empty table aborts |
| `Hashmap.Hashmap.Rehash` | src/generic/collection/hashmap.c:258-284 | a rehash that returns success has built the same map in a table of at least the requested capacity |
| `Hashmap.Hashmap.Restore` | src/generic/collection/hashmap.c:289-298 | the saved key is found again if and only if there is none, the new table has not outgrown the requested capacity, or the home chain of the key lies behind that position; then the iterator stands in that chain, and otherwise the abort is reached |
| `Hashmap.Hashmap.SetCapacity` | src/generic/collection/hashmap.c:258-302 | a call that returns keeps the map and the count, never shrinks the table, and reports XT_ENOBUFS exactly when filling the new table needs growth that is switched off; whether the process ends, the chains afterwards and the bucket of the iterator are exactly those of HashLayout.Resized; while no rehash inside the rehash outgrows its request the process ends if and only if the map is empty or its iterator is stranded |
| `HashGrowth.FitsIsSteady` | src/generic/collection/hashmap.c:13-21 | a table with room for its entries is filled without growing |
| `HashGrowth.StuckIsSteady` | src/generic/collection/hashmap.c:13-21 | a table whose growth truncates to nothing keeps its capacity, and no rehash of it outgrows its request |
| `HashGrowth.BigStepsAreSteady` | src/generic/collection/hashmap.c:13-21 | when growing makes room for at least one more entry, no rehash inside a rehash outgrows its request |
| `HashGrowth.Refused` | src/generic/collection/hashmap.c:276-282 | why filling stops early: growth is switched off, or growing asks for too little |
| `HashGrowth.Filling` | src/generic/collection/hashmap.c:276-282 | the capacity of the table that is being filled, before and after each entry |
| `HashGrowth.GrownIsNoSmaller` | src/generic/collection/hashmap.c:15-19 | the growth computation never asks for less than the current capacity |
| `HashGrowth.RoomKept` | src/generic/collection/hashmap.c:13-48 | additions and removals keep a table in the state where it has room for good: growing truncates to nothing, or makes room for at least one more entry, or follows the default policy |
| `HashGrowth.RoomIsSteady` | src/generic/collection/hashmap.c:13-48 | such a table ends a rehash with the capacity it asked for, and so do the rehashes within, so nothing is stranded |
| `HashGrowth.DefaultHasRoom` | src/generic/collection/hashmap.c:50-73 | every newly created table is in that state, whatever its capacity |
| `HashLayout.Room` | src/generic/collection/hashmap.c:15-22 | a table that survives the growth test keeps all its keys and has the computed capacity |
| `HashLayout.Refilled` | src/generic/collection/hashmap.c:276-282 | after p copied keys the new table holds p keys in the computed capacity, rehashes of it included |
| `HashLayout.DiesExactly` | src/generic/collection/hashmap.c:258-302 | a rehash ends the process if and only if the table is empty, making room for one of the keys it copies does, or the iterator ends up stranded |
| `HashLayout.FillingDies` | src/generic/collection/hashmap.c:276-282 | filling a table ends the process if and only if making room for one of the keys does |
| `HashLayout.StopsFor` | src/generic/collection/hashmap.c:276-282 | once filling has stopped nothing more is added |
| `HashLayout.ListedKeys` | src/generic/collection/hashmap.c:154-201 | keys are listed in the order in which iteration visits the entries |
| `HashLayout.KeysPut` | src/generic/collection/hashmap.c:31-46 | appending an entry to the linked chains is appending its key to the layout |
| `HashLayout.KeysCut` | src/generic/collection/hashmap.c:222-244 | unlinking an entry takes its key out of its home chain |
| `Hashmap.LoweredLimit` | src/generic/collection/hashmap.c:13-21 | two entries in four buckets under a growth limit of 0.1: the table asks for six buckets and has nine when it is filled |
| `Hashmap.LoweredLimitAborts` | src/generic/collection/hashmap.c:258-302 | a run of five calls that reaches the abort at line 297: create, add 0, add 1, lower the limit and add 2 |
| `HashmapRuns.RunStep` | src/generic/collection/hashmap.c:13-302 | runs extend by one operation that follows the finite map and the layout |
| `HashmapRuns.Apply` | src/generic/collection/hashmap.c:13-302 | one operation of any kind: its reply and its effect on contents, chains, iterator bucket and growth policy are those the finite map and the layout call for, and it ends the process if and only if they say so |
| `HashmapRuns.Execute` | src/generic/collection/hashmap.c:13-302 | every run of operations, changes of the growth policy included, gives the replies and the final state of the finite map and the layout, and ends early exactly at the first operation that they end; from an empty table every look-up recalls the last addition; runs of additions, look-ups and removals never end early when growth is off or the table has room for good, as every new table has under the default policy |
| `HashmapRuns.RunHolds` | src/generic/collection/hashmap.c:13-244 | after every run on an empty table it holds, up to equal keys, what the accepted additions brought and no later removal took |
| `HashmapRuns.GetRecalls` | src/generic/collection/hashmap.c:100-152 | every look-up of such a run answers with the value last added under an equal key, or that there is none |
| `Hashmap.ShorterChain` | src/generic/collection/hashmap.c:222-244 | links before and after removing one entry of a chain |
| `SuspendProtocol.StepKeepsInvariant` | src/linux/thread.c:61-71 | every atomic step of the suspending thread and of any number of others keeps the mutex discipline, the count and the pending-signal claim |
| `SuspendProtocol.RunKeepsInvariant` | src/linux/thread.c:61-71 | so does every interleaving, spurious wake-ups included |
| `SuspendProtocol.ReachableIsSafe` | src/linux/thread.c:174-184 | in every reachable state the count is suspends minus continues, the wait is left only with a count of at most 0 and the mutex held, and a thread blocked with such a count has a Continue about to signal |
| `SuspendProtocol.FinishingLowers` | src/linux/thread.c:61-71 | while a suspended thread with a count of at most 0 has not returned, every finishing step of any thread lowers the number of steps left |
| `SuspendProtocol.SomeStepEnabled` | src/linux/thread.c:174-184 | and some finishing step can always be taken |
| `SuspendProtocol.RunsAreBounded` | src/linux/thread.c:174-184 | so a run of finishing steps makes it return or is no longer than the steps that were left |
| `SuspendProtocol.SuspendReturns` | src/linux/thread.c:174-184 | from every reachable state with a count of at most 0 every maximal run that finishes the calls already made, in any order, ends with the suspension returned: no wake-up is lost |
| `SuspendProtocol.SuspendCanReturn` | src/linux/thread.c:174-184 | and such a run exists |
| `SuspendProtocol.BlocksOnlyWhenAhead` | src/linux/thread.c:174-184 | the test blocks if and only if suspends outnumber continues |
| `SuspendProtocol.SpuriousWakeBlocksAgain` | src/linux/thread.c:180-181 | a spurious wake-up with a positive count leads back to the same state |
| `SuspendProtocol.ReleasedStays` | src/linux/thread.c:174-184 | once the count of a suspended thread is at most 0, no run whatsoever, new calls and spurious wake-ups included, makes it positive before the suspension returns; the thread never blocks again and has at most three steps of its own before the return |
| `SuspendProtocol.RunCounts` | src/linux/thread.c:61-71 | over every run each call of Suspend by the subject and each call of Continue by another thread is counted once, unless it is still on its way to the counter |
| `SuspendProtocol.CallsAreCounted` | src/linux/thread.c:61-184 | in every reachable state the suspends are the Suspend calls less one that has not counted, the continues are the Continue calls less the threads that have not counted; with nobody inside a call the count is their difference, however often it was asked for |
| `SuspendProtocol.SuspendedAndContinued` | src/linux/thread.c:61-184 | a run in which the subject blocks, another thread continues it and it returns |
| `Blowfish.CipherInverts` | src/generic/crypto/blowfish.c:61-93 | for every S and P, decipher undoes encipher and encipher undoes decipher |
| `Blowfish.FOfBytes` | src/generic/crypto/blowfish.c:54-57 | the round function takes one entry from each box, by the bytes of the word from the highest on |
| `Blowfish.CombinedIs` | src/generic/crypto/blowfish.c:54-57 | the entries of the first two boxes are added, the third is combined by exclusive or and the fourth added |
| `Blowfish.EncipherNeedsSubkey` | src/generic/crypto/blowfish.c:61-76 | two contexts that differ in one subkey, whichever it is, encipher every block differently |
| `Blowfish.DecipherNeedsSubkey` | src/generic/crypto/blowfish.c:78-93 | and decipher every block differently |
| `Blowfish.BackwardUnwinds` | src/generic/crypto/blowfish.c:78-93 | the rounds in reverse order peel off the rounds in order |
| `Blowfish.RoundsArePublished` | src/generic/crypto/blowfish.c:61-76 | alternating the roles of the two halves is the Feistel round with a swap |
| `Blowfish.EncipherIsPublished` | src/generic/crypto/blowfish.c:61-76 | the encipher routine is the sixteen-round Feistel cipher with the last swap undone |
| `Blowfish.Encipher` | src/generic/crypto/blowfish.c:61-76 | the unrolled macro calls compute the sixteen rounds and the two whitening words |
| `Blowfish.Decipher` | src/generic/crypto/blowfish.c:78-93 | the unrolled macro calls in descending order compute the inverse |
| `BlowfishModes.BlockInverts` | src/generic/crypto/blowfish.c:452-486 | on eight bytes in network order the block cipher and its inverse undo each other |
| `BlowfishModes.FirstByteHighest` | src/generic/crypto/blowfish.c:452-468 | the first of four bytes is the highest of the word |
| `BlowfishModes.XorBytesAt` | src/generic/crypto/blowfish.c:488-507 | chaining combines byte by byte |
| `BlowfishModes.EcbAt` | src/generic/crypto/blowfish.c:452-486 | in ECB each block is enciphered and deciphered on its own |
| `BlowfishModes.EcbRoundTrip` | src/generic/crypto/blowfish.c:452-486 | ECB decryption undoes ECB encryption and the other way round |
| `BlowfishModes.CbcRoundTrip` | src/generic/crypto/blowfish.c:488-545 | for every context, vector and message of whole blocks CBC decryption undoes CBC encryption |
| `BlowfishModes.CbcRoundTripBack` | src/generic/crypto/blowfish.c:488-545 | and encryption undoes decryption |
| `BlowfishModes.CbcEncryptedAt` | src/generic/crypto/blowfish.c:488-507 | each encrypted block is the block combined with the ciphertext before it, or the vector, and enciphered |
| `BlowfishModes.CbcDecryptedAt` | src/generic/crypto/blowfish.c:509-545 | each decrypted block depends on its own and the previous ciphertext block only |
| `BlowfishModes.EncryptEcb` | src/generic/crypto/blowfish.c:452-468 | the in-place loop is ECB encryption |
| `BlowfishModes.DecryptEcb` | src/generic/crypto/blowfish.c:470-486 | the in-place loop is ECB decryption |
| `BlowfishModes.EncryptCbc` | src/generic/crypto/blowfish.c:488-507 | the forward in-place loop is CBC encryption |
| `BlowfishModes.DecryptCbc` | src/generic/crypto/blowfish.c:509-545 | the backward in-place loop never overwrites a block it still needs and is CBC decryption |
| `BlowfishModes.EncryptThenDecrypt` | src/generic/crypto/blowfish.c:488-545 | the two in-place routines in a row restore the buffer |
| `WordBits.BitsDecide` | src/generic/crypto/serpent.c:23-38 | words that agree on every bit are equal |
| `WordBits.BitOperations` | src/generic/crypto/serpent.c:23-38 | the word operations of the boxes act on each bit by their truth table |
| `SerpentBoxes.Published0` | src/generic/crypto/serpent.c:23 | on every bit position box 0 is the published S-box S0 of the Serpent proposal |
| `SerpentBoxes.Published1` | src/generic/crypto/serpent.c:25 | on every bit position box 1 is the published S-box S1 of the Serpent proposal |
| `SerpentBoxes.Published2` | src/generic/crypto/serpent.c:27 | on every bit position box 2 is the published S-box S2 of the Serpent proposal |
| `SerpentBoxes.Published3` | src/generic/crypto/serpent.c:29 | on every bit position box 3 is the published S-box S3 of the Serpent proposal |
| `SerpentBoxes.Published4` | src/generic/crypto/serpent.c:31 | on every bit position box 4 is the published S-box S4 of the Serpent proposal |
| `SerpentBoxes.Published5` | src/generic/crypto/serpent.c:33 | on every bit position box 5 is the published S-box S5 of the Serpent proposal |
| `SerpentBoxes.Published6` | src/generic/crypto/serpent.c:35 | on every bit position box 6 is the published S-box S6 of the Serpent proposal |
| `SerpentBoxes.Published7` | src/generic/crypto/serpent.c:37 | on every bit position box 7 is the published S-box S7 of the Serpent proposal |
| `SerpentBoxes.Inverts0` | src/generic/crypto/serpent.c:23-24 | box 0 and inverse box 0 undo each other on all 128-bit states |
| `SerpentBoxes.Inverts1` | src/generic/crypto/serpent.c:25-26 | box 1 and inverse box 1 undo each other on all 128-bit states |
| `SerpentBoxes.Inverts2` | src/generic/crypto/serpent.c:27-28 | box 2 and inverse box 2 undo each other on all 128-bit states |
| `SerpentBoxes.Inverts3` | src/generic/crypto/serpent.c:29-30 | box 3 and inverse box 3 undo each other on all 128-bit states |
| `SerpentBoxes.Inverts4` | src/generic/crypto/serpent.c:31-32 | box 4 and inverse box 4 undo each other on all 128-bit states |
| `SerpentBoxes.Inverts5` | src/generic/crypto/serpent.c:33-34 | box 5 and inverse box 5 undo each other on all 128-bit states |
| `SerpentBoxes.Inverts6` | src/generic/crypto/serpent.c:35-36 | box 6 and inverse box 6 undo each other on all 128-bit states |
| `SerpentBoxes.Inverts7` | src/generic/crypto/serpent.c:37-38 | box 7 and inverse box 7 undo each other on all 128-bit states |
| `Serpent.RotatesBack` | src/generic/crypto/serpent.c:21-22 | left and right rotation undo each other for the amounts used |
| `Serpent.MixInverts` | src/generic/crypto/serpent.c:42-43 | rot and irot undo each other |
| `Serpent.MixSpreads` | src/generic/crypto/serpent.c:42 | which bits single bits of the registers reach in the linear transformation |
| `Serpent.RoundInverts` | src/generic/crypto/serpent.c:48-53 | a round and its inverse undo each other for every expanded key |
| `Serpent.BackwardUnwinds` | src/generic/crypto/serpent.c:85-96 | the inverse rounds peel off the rounds |
| `Serpent.ForwardUnwinds` | src/generic/crypto/serpent.c:106-117 | the rounds peel off the inverse rounds |
| `Serpent.BlockInverts` | src/generic/crypto/serpent.c:85-117 | for every expanded key decrypting a block undoes encrypting it and the other way round |
| `Serpent.EncryptionNeedsKey` | src/generic/crypto/serpent.c:106-117 | two expanded keys that differ in one round key, whichever it is, encrypt every block differently |
| `Serpent.DecryptionNeedsKey` | src/generic/crypto/serpent.c:85-96 | and decrypt every block differently |
| `Serpent.LastWordsShow` | src/generic/crypto/serpent.c:39 | changing word 136 + j of the expanded key by d changes exactly register j of the result, by exclusive or with d |
| `Serpent.FirstByteLowest` | src/generic/crypto/serpent.c:46 | the first of four bytes is the lowest of the word |
| `Serpent.BlockAt` | src/generic/crypto/serpent.c:98-125 | block k of the output is block k of the input, encrypted or decrypted |
| `Serpent.EncryptRegisters` | src/generic/crypto/serpent.c:106-117 | the macro sequence with alternating register sets computes the thirty-two rounds |
| `Serpent.DecryptRegisters` | src/generic/crypto/serpent.c:85-96 | the macro sequence of the decryption computes the inverse rounds |
| `Serpent.BlocksInvert` | src/generic/crypto/serpent.c:98-125 | the round trip on every input of whole blocks |
| `Serpent.Transform` | src/generic/crypto/serpent.c:98-125 | the block loop transforms each block of the input on its own |
| `Serpent.EncryptThenDecrypt` | src/generic/crypto/serpent.c:98-125 | encrypting into one buffer and decrypting into another restores the data |
| `Crc32.TableIsSteps` | src/generic/hash/crc32.c:5-38 | each of the 256 table entries is eight reflected 0xEDB88320 steps of its index |
| `Crc32.StepLinear` | src/generic/hash/crc32.c:40-48 | the step commutes with exclusive or |
| `Crc32.LookUpIsSteps` | src/generic/hash/crc32.c:46 | one look-up does the work of eight bitwise steps |
| `Crc32.HashCRC32` | src/generic/hash/crc32.c:40-48 | for every start value and byte string the table form is the bitwise form of section 8 of RFC 1952 |
| `Crc32.ChecksumContinues` | src/generic/hash/crc32.c:40-48 | continuing a checksum over a second piece gives the checksum of both pieces together |
| `Crc32.FourBytes` | src/generic/hash/crc32.c:40-48 | four bytes enter the register as one word followed by thirty-two steps |
| `Crc32.WindowDetected` | src/generic/hash/crc32.c:40-48 | messages that differ only inside a window of at most four bytes never share a checksum |
| `Crc32.CheckValue` | src/generic/hash/crc32.c:40-48 | the checksum of "123456789" is the published check value 0xCBF43926 |
| `Base64.TablesInvert` | src/generic/string/base64.c:7-45 | the alphabet and the index table are inverse on six-bit values and on the alphabet |
| `Base64.Alphabet` | src/generic/string/base64.c:7-8 | the characters of the values 0 to 63 |
| `Base64.GroupBits` | src/generic/string/base64.c:97-129 | the four values of a group are its twenty-four bits, six at a time from the highest on, and missing bytes count as 0 |
| `Base64.EncodedShape` | src/generic/string/base64.c:149-153 | the encoding of n bytes has ceil(4n/3) alphabet characters; the announced size is enough, and exact for multiples of three |
| `Base64.TerminatorStops` | src/generic/string/base64.c:48-88 | a byte outside the alphabet at or after the given length keeps every read of Decode inside the text |
| `Base64.DecodesBack` | src/generic/string/base64.c:48-88 | decoding the characters of a byte string gives it back when the room or the text ends there |
| `Base64.RoundTrip` | src/generic/string/base64.c:48-137 | decoding the NUL-terminated encoding into any buffer with enough room yields exactly the bytes |
| `Base64.DecodesPrefix` | src/generic/string/base64.c:48-88 | a smaller buffer is filled with the beginning of the encoded bytes |
| `Base64.RoomFilled` | src/generic/string/base64.c:48-88 | Decode fills its buffer if and only if all characters it needs are in the alphabet |
| `Base64.EncodedInjective` | src/generic/string/base64.c:97-137 | different byte strings have different encodings |
| `Base64.Put` | src/generic/string/base64.c:90-95 | a character is stored only while there is room |
| `Base64.EncodeLoop` | src/generic/string/base64.c:97-129 | the loop writes the encoding, or as much of it as there is room for, and touches no other byte |
| `Base64.OneByteOver` | src/generic/string/base64.c:97-137 | outside the buffer only the byte right behind it changes, and it becomes 0 if and only if the text has exactly as many characters as the buffer has bytes |
| `Base64.Encode` | src/generic/string/base64.c:97-137 | the text and a NUL, or XT_EMSGSIZE and a cut text that still ends in a NUL |
| `Base64.Decode` | src/generic/string/base64.c:48-88 | the decoded bytes are written to the front of the buffer and the rest of it is untouched |
| `Base64.EncodeAll` | src/generic/string/base64.c:97-153 | a buffer of the announced size plus one byte holds every encoding with its NUL |
| `Base64.EncodeThenDecode` | src/generic/string/base64.c:48-137 | the round trip through two buffers |
| `Bcrypt.TwoDigitsReadBack` | src/generic/crypto/bcrypt.c:207 | the printed rounds are read back by atoi |
| `Bcrypt.RoundsRange` | src/generic/crypto/bcrypt.c:153-159 | a rounds field is accepted if and only if it is between 4 and 31 |
| `Bcrypt.AtoiSkips` | src/generic/crypto/bcrypt.c:153 | white space and one sign before a digit |
| `Bcrypt.AcceptedText` | src/generic/crypto/bcrypt.c:164-170 | an accepted salt has at least 22 characters of text and decoding it stays inside |
| `Bcrypt.DigitIsAscii` | src/generic/crypto/bcrypt.c:207 | decimal digits are printed in ASCII |
| `Bcrypt.HeaderText` | src/generic/crypto/bcrypt.c:200-207 | a hash starts with "$2a$" or "$2$", two digits and "$" |
| `Bcrypt.HeaderParses` | src/generic/crypto/bcrypt.c:125-165 | a printed header followed by text is accepted if and only if the text has at least 22 characters, with the same minor version and rounds |
| `Bcrypt.PrintedParses` | src/generic/crypto/bcrypt.c:200-221 | re-parsing a printed hash recovers its minor version, its rounds and its sixteen salt bytes |
| `Bcrypt.FixedPoint` | src/generic/crypto/bcrypt.c:110-234 | hashing a key again with its hash as the salt gives that hash and no other, for every salt the first call accepted |
| `Bcrypt.PrintedInjective` | src/generic/crypto/bcrypt.c:200-221 | printing loses nothing but the last cipher byte |
| `Bcrypt.CheckSucceedsExactly` | src/generic/crypto/bcrypt.c:110-234 | another key reproduces a hash if and only if 23 bytes of its cipher text agree |
| `Bcrypt.HashUniqueExactly` | src/generic/crypto/bcrypt.c:167-172 | the result is independent of uninitialised memory if and only if the first 22 characters of salt text are in the alphabet |
| `Bcrypt.KeyBytesAgree` | src/generic/crypto/bcrypt.c:169 | under the minor version the first m key bytes that the cipher reads agree for two passwords of less than 255 bytes if and only if they are equal, or both have m bytes and agree on those |
| `Bcrypt.KeysToldApart` | src/generic/crypto/bcrypt.c:169 | so their endless streams agree if and only if the passwords are equal |
| `Bcrypt.RepeatedKey` | src/generic/crypto/bcrypt.c:137-146 | without the minor version "ab" and "abab" are the same stream |
| `Bcrypt.RepeatedKeyCollides` | src/generic/crypto/bcrypt.c:137-146 | and with such a salt they have the same hashes under every cipher that reads its key as that stream |
| `Bcrypt.LongKeysCollide` | src/generic/crypto/bcrypt.c:167-180 | passwords that agree on as many bytes as the cipher reads have the same hashes |
| `Bcrypt.ReadableExactly` | src/generic/crypto/bcrypt.c:125-164 | a C string can be passed as a salt without being read past its NUL if and only if it has two characters and does not end inside the rounds that its header announces |
| `Bcrypt.ShortSaltsOverrun` | src/generic/crypto/bcrypt.c:125-148 | the empty string, "$" and "$2$1" are read past their end |
| `Bcrypt.ParseSalt` | src/generic/crypto/bcrypt.c:125-165 | walking the salt pointer computes the specified parse |
| `Bcrypt.WriteHeader` | src/generic/crypto/bcrypt.c:200-207 | the header bytes and the NUL behind them |
| `Bcrypt.PrintHash` | src/generic/crypto/bcrypt.c:200-221 | header, salt and cipher text follow one another, and the error exits are not taken |
| `Bcrypt.HashPassword` | src/generic/crypto/bcrypt.c:110-234 | small buffers and bad salts are reported with their effect on the buffer; otherwise a hash of the key is written |
| `Bcrypt.GenSalt` | src/generic/crypto/bcrypt.c:78-106 | rounds are clamped to 4..31 and the salt is printed, cut to the buffer if need be |
| `Bcrypt.GeneratedAccepted` | src/generic/crypto/bcrypt.c:78-106 | a generated salt is accepted if and only if its seed has sixteen bytes, and then gives back the first sixteen |
| `Bcrypt.GeneratedHash` | src/generic/crypto/bcrypt.c:90-234 | with a generated salt the hash is determined by key, rounds and seed |
| `Bcrypt.RoundsAnnounced` | src/generic/crypto/bcrypt.c:236-247 | GetRounds reads the logarithm of the rounds from hashes and from salts |
| `Bcrypt.Register` | src/generic/crypto/bcrypt.c:90-234 | generating a salt and hashing with it |
| `Bcrypt.Check` | src/generic/crypto/bcrypt.c:110-234 | hashing with a stored hash as the salt writes the stored text again |
| `Bcrypt.RegisterThenCheck` | src/generic/crypto/bcrypt.c:90-234 | register and check agree for every key, rounds setting and sixteen-byte seed |
| `Queue.FirstInFirstOut` | src/generic/collection/queue.c:97-113 | over every run of operations, what left followed by what is still there is what was there followed by what entered |
| `Queue.PopsAnswerInOrder` | src/generic/collection/queue.c:236-244 | over every run without drops, what the pops answered followed by what is still there is what was there followed by what entered |
| `Queue.AnswersInOrder` | src/generic/collection/queue.c:187-292 | over every run, a pop or peek with k elements gone answers element k of all that was there or entered, or that there is none |
| `Queue.DropsCount` | src/generic/collection/queue.c:286-292 | over every run, a drop answers how many elements are left after it |
| `Queue.ShiftAll` | src/generic/collection/queue.c:187-292 | all that is there or enters in a run is what its first operation takes out, then all that is there or enters after it |
| `Queue.PeekForetells` | src/generic/collection/queue.c:187-244 | a peek that shows an element shows what the next pop answers, if none leaves in between |
| `Queue.Growth` | src/generic/collection/queue.c:99-108 | a positive policy grows by that much, a negative one by the capacity divided by its size, and either by at least one |
| `Queue.NoPushRefused` | src/generic/collection/queue.c:97-113 | while growth is not disabled no push is refused |
| `Queue.PolicyKept` | src/generic/collection/queue.c:97-113 | the growth policy survives a push if and only if the push did not grow, or the policy is off or the default anyway |
| `Queue.CopyIsInOrder` | src/generic/collection/queue.c:341-359 | copying from front on keeps the element order if and only if the queue is empty or full |
| `Queue.Ring.Create` | src/generic/collection/queue.c:38-55 | an empty queue; capacity 0 allocates the default but records 0 |
| `Queue.Ring.CopyInto` | src/generic/collection/queue.c:352-353 | the loop copies the cells from front on, around the end of the storage |
| `Queue.Ring.SetCapacity` | src/generic/collection/queue.c:341-359 | the exact contents, indices and policy afterwards, and when the indices are still usable |
| `Queue.Ring.Grow` | src/generic/collection/queue.c:99-108 | growing a full ring keeps the elements in order |
| `Queue.Ring.Store` | src/generic/collection/queue.c:109-111 | storing at front appends |
| `Queue.Ring.Push` | src/generic/collection/queue.c:97-113 | a push appends, growing a full queue by at least one or refusing when growth is disabled |
| `Queue.Ring.Peek` | src/generic/collection/queue.c:187-193 | the oldest element, or nothing from an empty queue |
| `Queue.Ring.Pop` | src/generic/collection/queue.c:236-244 | the oldest element is answered and leaves |
| `Queue.Ring.Drop` | src/generic/collection/queue.c:286-292 | the oldest element leaves and the remaining count is returned |
| `Queue.Execute` | src/generic/collection/queue.c:97-359 | any run of operations on a new ring gives the replies and contents of the reference, and its own replies hand out the entered values in order, with nothing left out |
| `Math.IsPow2Exactly` | src/generic/math.c:6-9 | the test accepts exactly 2^k with 1 <= k < 64 |
| `Math.SmearIsMask` | src/generic/math.c:28-33 | the six shifts leave a block of low one bits |
| `Math.SmearIsLeast` | src/generic/math.c:28-33 | and it is the least such block that holds the word |
| `Math.SmearRoundsUp` | src/generic/math.c:25-35 | for 1 <= v <= 2^63 the result is the least power of two not below v |
| `Math.SmearOverflows` | src/generic/math.c:25-35 | for 0 and above 2^63 the increment wraps to 0 |
| `Math.NextPow2` | src/generic/math.c:25-35 | rounds up if and only if 1 <= v <= 2^63, returns 0 otherwise, and the result passes the power-of-two test exactly when 2 <= v <= 2^63 |

## Left out

- Hashmap.Hashmap.constructor: capacity 0, for which the source allocates no bucket and then writes the default number of them.
- Hashmap.Hashmap.SetCapacity: growth factor and limit are real numbers; float rounding and NaN are not modelled.
- HashmapRuns.Execute: iteration is not one of the operations of a run; a run starts from any iterator position.
- Hashmap.Hashmap.Foreach: changing the map while iterating is not covered.
- HashChains, Hashmap: the FREE flags, destruction, allocation failure and the entry that leaks when a key exists.
- RadixSort.Sort: values of 4135583744 and more, where the source divides by zero.
- SignedRadix.Sort: lists that leave the counters, where the source writes outside its array, and maxima of 10^9 and more, where its product overflows int.
- SortApi.SortU, SortApi.SortD, SortApi.SortP: a count of 0 for heap, quick, select and radix sort, which read an element unconditionally; allocation failure in the sorts that use a temporary.
- ShaContext.PaddingIsFips: the standards define no digest for messages of 2^64 bits (SHA-256) or 2^128 bits (SHA-512) and more; there the comparison is with the low bits of the length.
- Hash.XtHash.Digest: the three digest contexts are separate objects instead of one union; a second digest without a reset is not described.
- Md5Rounds.Transform: the unaligned 32-bit reads of the block are modelled as on a little-endian machine.
- SuspendProtocol.SuspendReturns: assumes that calls already made go on and no new ones start; a scheduler that is unfair to the thread in an endless stream of new calls can delay the return, but not undo what allows it (SuspendProtocol.ReleasedStays); the int count does not overflow; creation and joining of threads are not modelled.
- Blowfish, Serpent: key schedules (with the unparenthesised x+1 in the aa macro of serpent.c:44) and the contents of the Blowfish boxes; the round trips hold for every context.
- BlowfishModes.DecryptCbc: an initialisation vector that overlaps the data, and a length of 0, which include/xt/crypto.h allows and for which the source computes length - 8 and leaves the buffer.
- Serpent.Transform: encrypting a buffer onto itself, which the restrict qualifiers exclude.
- Crc32.WindowDetected: errors spread over more than four bytes.
- Bcrypt.HashPassword: the Blowfish part of the hash is an arbitrary function of key, key length, salt bytes and rounds, so nothing is said about its strength or about keys of 255 bytes; clearing of the work buffers.
- Bcrypt.RoundsAnnounced: overflow of atoi and the NULL argument of xtBcryptGetRounds.
- Queue.Ring.SetCapacity: a direct call on a part-full queue is described exactly but is outside the runs of Queue.Execute; allocation failure is left out.
- Base64: xtBase64GetDecodedSize, an estimate that expects padding characters this alphabet never produces.
- Math: xtMathMemSplit.
- Files, sockets, processes, consoles, clocks and dynamic loading in src/linux and src/windows, and the Windows variants of the thread and mapping code.
- The remaining string helpers, the formatting wrappers, time arithmetic, lists and stacks: short or array-backed code that would only add easy members.
