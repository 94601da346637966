# silk containers in Dafny

This project models the core of silk, a small C library of generic containers and byte
utilities:

- the dynamic array of `src/vector.c` (module `Vectors`);
- the older, one-element-at-a-time array of `src/silk/vector.c` (module `SilkVectors`);
- the doubly linked list of `src/silk/list.c` (module `Lists`);
- the growable C string of `src/string.c`, built on the vector (module `Strings`);
- the little- and big-endian readers and writers of `src/endian.c` (module `Endian`);
- MurmurHash3 x86_32 from `src/silk/hash.c` (module `Hash`);
- the three-way comparators of `src/silk/compare.c` (module `Compare`);
- the `SILK_ROL`/`SILK_ROR` rotate macros of `include/silk/utils.h` (module `Utils`).

Four shared modules support them:

- `Growth` is the capacity rule the two vectors share.
- `Common` holds sequence insertion and removal, `SIZE_MAX` and `INVALID_INDEX`.
- `SortSpec` states the invariant of the explicit-stack quicksort on sequences; all three
  sorts use it.
- `ArraySort` is that quicksort on an array, shared by both vectors.

Each C object whose fields the library updates in place is a Dafny class with those fields:

- A vector holds an `array` buffer, a `length` and a `capacity`.
- A list holds `head`, `tail` and `length`; each node holds `data`, `prev` and `next`.
- A string holds its character vector.

Each method states the new state against the old one, through a function of the state:

- `Contents()` for a vector;
- the ghost sequences `Nodes` and `Contents` for a list;
- `Text()` for a string.

Allocation can fail at almost every point where the C allocates. The model makes each
allocation result a nondeterministic choice, and the contract covers both outcomes. There
are two exceptions. `SilkVectors.Vector.Sort` assumes that all its stack pushes succeed,
the first pair before the loop included. `Lists.List.Sort` assumes that the pushes inside
its loop succeed (see "## Left out").

A failed `SILK_ASSERT` that gives a value returns that value. The older `src/silk` files
and `src/string.c` also have asserts without a value. In a function that returns a value,
the model treats such an assert as returning false, null or `INVALID_INDEX`, whichever fits
the function's type. In a `void` function (`silk_string_clear`) it just returns.

Element types are type parameters in place of the C's `element_size` and `void*`
copies. Comparators are functions `(T, T) -> int`. The sorts require `ValidComparator`:
a comparator whose sign is antisymmetric and whose `<= 0` is transitive.

## Model

| member | source | states |
|---|---|---|
| Common.InsertedParts | src/vector.c:270-281 | inserting a run keeps the prefix before the index, puts the run at the index and shifts the rest after it; the length grows by the run's length |
| Common.RemovedUndoesInserted | src/vector.c:313-323 | removing, at the same index, as many elements as were inserted gives back the original sequence |
| Common.InsertedUndoesRemoved | src/vector.c:270-281 | re-inserting a removed run at its index gives back the original sequence |
| Common.InsertedAt | src/vector.c:270-281 | a sequence that agrees with the original before the index, holds the run at the index and holds the shifted tail after it is exactly the insertion |
| Common.RemovedAt | src/vector.c:313-323 | a sequence that agrees with the original before the index and holds the tail shifted down by the count is exactly the removal |
| Common.InsertedBeforeLast | src/string.c:184-190 | inserting inside the text commutes with keeping the terminator last |
| Common.RemovedBeforeLast | src/string.c:246-252 | removing inside the text commutes with keeping the terminator last |
| Compare.Compare | src/silk/compare.c:8-18 | the comparator returns exactly 1, -1 or 0 when x is greater than, less than or equal to y |
| Compare.CompareAs | src/silk/compare.c:20-34 | for any of the integer types, values in that type's range compare as the mathematical integers, and swapping the operands negates the result |
| Compare.CompareIsValid | src/silk/compare.c:8-18 | the generated comparators meet the sorts' requirement: antisymmetric in sign and transitive |
| Compare.ComparatorFacts | src/silk/compare.c:8-18 | any comparator the sorts accept compares each value equal to itself, and of two values at least one is at most the other |
| Compare.CompareAtTypeBounds | src/test/test_compare.c:9-28 | the extreme values of each integer type compare in the right order, and a value compares equal to itself |
| Growth.NextCapacity | src/vector.c:23-47 | one growth step always enlarges the capacity, by at most 1024 slots (0 to 1, doubling up to 1024, then plus 1024) |
| Growth.GrowUntil | src/vector.c:55-65 | repeated growth ends with a capacity strictly above the need and never below the starting capacity |
| Growth.GrowUntilWaste | src/vector.c:55-65 | repeated growth overshoots the need by at most 1024 slots, unless the capacity was already larger |
| Utils.RorUndoesRol | include/silk/utils.h:11-20 | rotating right by b undoes rotating left by b, for 0 < b < 32 |
| Utils.RolUndoesRor | include/silk/utils.h:11-20 | rotating left by b undoes rotating right by b, for 0 < b < 32 |
| Utils.RotateComplement32 | include/silk/utils.h:11-20 | rotating left by b is rotating right by 32 - b |
| Endian.ReverseAt | src/endian.c:58-64 | the reversed byte sequence holds byte i at position n-1-i |
| Endian.Join16 | src/endian.c:105-110 | the two bytes a 16-bit write stores read back as the value, in either byte order |
| Endian.SplitLittle16 | src/endian.c:11-17 | `ReadLittle16` (`silk_endian_read_little16`) reads two bytes into a value from which each byte is recovered by shifting and masking, so the read is the little-endian assembly of the bytes |
| Endian.SplitBig16 | src/endian.c:58-64 | `ReadBig16` (`silk_endian_read_big16`) reads two bytes into a value from which each byte is recovered by shifting and masking, so the read is the big-endian assembly of the bytes |
| Endian.BigIsLittleReversed16 | src/endian.c:58-64 | a big-endian read is a little-endian read of the bytes in reverse order |
| Endian.Join32 | src/endian.c:117-124 | the four bytes a 32-bit write stores read back as the value, in either byte order |
| Endian.SplitLittle32 | src/endian.c:24-32 | `ReadLittle32` (`silk_endian_read_little32`) reads four bytes into a value from which each byte is recovered by shifting and masking, so the read is the little-endian assembly of the bytes |
| Endian.SplitBig32 | src/endian.c:71-79 | `ReadBig32` (`silk_endian_read_big32`) reads four bytes into a value from which each byte is recovered by shifting and masking, so the read is the big-endian assembly of the bytes |
| Endian.BigIsLittleReversed32 | src/endian.c:71-79 | a big-endian read is a little-endian read of the bytes in reverse order |
| Endian.Join64 | src/endian.c:131-142 | the eight bytes a 64-bit write stores read back as the value, in either byte order |
| Endian.SplitLittle64 | src/endian.c:39-51 | `ReadLittle64` (`silk_endian_read_little64`) reads eight bytes into a value from which each byte is recovered by shifting and masking, so the read is the little-endian assembly of the bytes |
| Endian.SplitBig64 | src/endian.c:86-98 | `ReadBig64` (`silk_endian_read_big64`) reads eight bytes into a value from which each byte is recovered by shifting and masking, so the read is the big-endian assembly of the bytes |
| Endian.BigIsLittleReversed64 | src/endian.c:86-98 | a big-endian read is a little-endian read of the bytes in reverse order |
| Endian.WriteLittle16 | src/endian.c:105-110 | the two bytes at the offset become the little-endian bytes of the value; no other byte changes |
| Endian.WriteLittle32 | src/endian.c:117-124 | the four bytes at the offset become the little-endian bytes of the value; no other byte changes |
| Endian.WriteLittle64 | src/endian.c:131-142 | the eight bytes at the offset become the little-endian bytes of the value; no other byte changes |
| Endian.WriteBig16 | src/endian.c:149-154 | the two bytes at the offset become the big-endian bytes of the value; no other byte changes |
| Endian.WriteBig32 | src/endian.c:161-168 | the four bytes at the offset become the big-endian bytes of the value; no other byte changes |
| Endian.WriteBig64 | src/endian.c:175-186 | the eight bytes at the offset become the big-endian bytes of the value; no other byte changes |
| Endian.LittleWriteRead16 | src/endian.c:11-17 | reading back what a little-endian 16-bit write stored gives the value |
| Endian.LittleReadWrite16 | src/endian.c:105-110 | writing the value a little-endian 16-bit read produced gives back the two bytes |
| Endian.BigWriteRead16 | src/endian.c:58-64 | reading back what a big-endian 16-bit write stored gives the value |
| Endian.BigReadWrite16 | src/endian.c:149-154 | writing the value a big-endian 16-bit read produced gives back the two bytes |
| Endian.BigIsReversedLittle16 | src/endian.c:149-154 | the big-endian bytes of a value are its little-endian bytes reversed |
| Endian.BigReadIsReversedLittleRead16 | src/endian.c:58-64 | a big-endian 16-bit read equals a little-endian read of the reversed bytes |
| Endian.LittleBytesInjective16 | src/endian.c:105-110 | distinct values write distinct byte pairs |
| Endian.LittleWriteRead32 | src/endian.c:24-32 | reading back what a little-endian 32-bit write stored gives the value |
| Endian.LittleReadWrite32 | src/endian.c:117-124 | writing the value a little-endian 32-bit read produced gives back the four bytes |
| Endian.BigWriteRead32 | src/endian.c:71-79 | reading back what a big-endian 32-bit write stored gives the value |
| Endian.BigReadWrite32 | src/endian.c:161-168 | writing the value a big-endian 32-bit read produced gives back the four bytes |
| Endian.BigIsReversedLittle32 | src/endian.c:161-168 | the big-endian bytes of a value are its little-endian bytes reversed |
| Endian.BigReadIsReversedLittleRead32 | src/endian.c:71-79 | a big-endian 32-bit read equals a little-endian read of the reversed bytes |
| Endian.LittleBytesInjective32 | src/endian.c:117-124 | distinct values write distinct byte quadruples |
| Endian.LittleWriteRead64 | src/endian.c:39-51 | reading back what a little-endian 64-bit write stored gives the value |
| Endian.LittleReadWrite64 | src/endian.c:131-142 | writing the value a little-endian 64-bit read produced gives back the eight bytes |
| Endian.BigWriteRead64 | src/endian.c:86-98 | reading back what a big-endian 64-bit write stored gives the value |
| Endian.BigReadWrite64 | src/endian.c:175-186 | writing the value a big-endian 64-bit read produced gives back the eight bytes |
| Endian.BigIsReversedLittle64 | src/endian.c:175-186 | the big-endian bytes of a value are its little-endian bytes reversed |
| Endian.BigReadIsReversedLittleRead64 | src/endian.c:86-98 | a big-endian 64-bit read equals a little-endian read of the reversed bytes |
| Endian.LittleBytesInjective64 | src/endian.c:131-142 | distinct values write distinct byte octets |
| Endian.ReadVectors | src/test/test_endian.c:4-102 | a sample of the library's tests: nine reads of the byte table 0x00, 0x11, ..., 0xff, in both byte orders and at several offsets, give the values the tests expect |
| Hash.TailStep | src/silk/hash.c:42-56 | when the length is not a multiple of four, the tail bytes are assembled little-endian, scrambled and xored into the state |
| Hash.Murmur3_32 | src/silk/hash.c:12-66 | a NULL data pointer returns the seed; otherwise the loop returns the MurmurHash3 x86_32 reference value of the first len bytes |
| Hash.BlockIsLittleEndianRead | src/silk/hash.c:24-28 | each 4-byte chunk the loop reads is the little-endian 32-bit word at that offset |
| Hash.BodyPrefix | src/silk/hash.c:26-36 | the block loop depends only on the blocks it has consumed, not on bytes after them |
| Hash.BodyStep | src/silk/hash.c:26-36 | one iteration of the block loop advances the reference fold by one block |
| Hash.HashFromBody | src/silk/hash.c:38-65 | the block fold followed by the tail and the finalizer is the reference hash |
| Hash.HelloWorldSeed0 | test/test_hash.c:9 | "helloworld" with seed 0 hashes to 2687965642 |
| Hash.HelloWorldSeed1 | test/test_hash.c:10 | "helloworld" with seed 1 hashes to 2081296690 |
| Hash.HelloWorldSeedMax | test/test_hash.c:11 | "helloworld" with seed UINT32_MAX hashes to 1308330980 |
| Hash.Count32Seed0 | test/test_hash.c:21 | the bytes 1..32 with seed 0 hash to 3939779180 |
| Hash.Count32Seed1 | test/test_hash.c:22 | the bytes 1..32 with seed 1 hash to 4224611204 |
| Hash.Count32SeedMax | test/test_hash.c:23 | the bytes 1..32 with seed UINT32_MAX hash to 15435841 |
| Hash.Count31Seed0 | test/test_hash.c:26 | the bytes 1..31 (three tail bytes) with seed 0 hash to 2070738917 |
| Hash.Count31Seed1 | test/test_hash.c:27 | the bytes 1..31 with seed 1 hash to 2758145370 |
| Hash.Count31SeedMax | test/test_hash.c:28 | the bytes 1..31 with seed UINT32_MAX hash to 697923434 |
| Hash.Count30Seed0 | test/test_hash.c:31 | the bytes 1..30 (two tail bytes) with seed 0 hash to 18287138 |
| Hash.Count30Seed1 | test/test_hash.c:32 | the bytes 1..30 with seed 1 hash to 3096548982 |
| Hash.Count30SeedMax | test/test_hash.c:33 | the bytes 1..30 with seed UINT32_MAX hash to 4018556236 |
| Hash.Count29Seed0 | test/test_hash.c:36 | the bytes 1..29 (one tail byte) with seed 0 hash to 781610037 |
| Hash.Count29Seed1 | test/test_hash.c:37 | the bytes 1..29 with seed 1 hash to 3051931994 |
| Hash.Count29SeedMax | test/test_hash.c:38 | the bytes 1..29 with seed UINT32_MAX hash to 3650431031 |
| SortSpec.RearrangedTrans | src/vector.c:501-555 | two rearrangements of the same range compose into one |
| SortSpec.RearrangedWiden | src/vector.c:501-555 | a rearrangement of a range is a rearrangement of any range containing it |
| SortSpec.SwapInside | src/vector.c:531-534 | swapping two positions of a range rearranges that range and moves nothing outside it |
| SortSpec.SwapGrowsSides | src/vector.c:528-534 | after the cursors stop on a pair out of place, swapping them extends the part at most the pivot and the part at least the pivot |
| SortSpec.PivotSwapPartitions | src/vector.c:537-540 | swapping the pivot into the meeting point leaves the range partitioned around it |
| SortSpec.StartInv | src/vector.c:496-499 | the stack holding only the whole range satisfies the invariant |
| SortSpec.SortedAtEnd | src/vector.c:501 | when the stack is empty, the invariant means the elements are sorted |
| SortSpec.TogetherPush | src/vector.c:542-554 | after a push, two positions share a pending range exactly when they share the pushed range or shared one before |
| SortSpec.TotalPush | src/vector.c:542-554 | a push adds the pushed range's size to the total pending size |
| SortSpec.TogetherWitness | src/vector.c:542-554 | two positions that share a pending range have a stack entry covering both |
| SortSpec.NotTogetherRest | src/vector.c:503-504 | a position of the popped range is in no other pending range |
| SortSpec.Origin | src/vector.c:531-540 | every element of a rearranged range came from somewhere in that range |
| SortSpec.SegmentPerm | src/vector.c:531-540 | a rearranged range holds the same multiset of elements as before |
| SortSpec.Pushes | src/vector.c:542-554 | a round pushes at most two ranges |
| SortSpec.TogetherPushes | src/vector.c:542-554 | two positions share a range after the pushes exactly when they share one of the pushed parts or shared another pending range |
| SortSpec.DisjointAfterPush | src/vector.c:542-554 | the pushed parts keep the pending ranges disjoint and in bounds |
| SortSpec.TotalAfterPush | src/vector.c:542-554 | each round strictly decreases the total pending size, so the outer loop terminates |
| SortSpec.InsidePair | src/vector.c:537-554 | two positions of the popped range that no pushed part holds together are in order after the partition |
| SortSpec.SettledAt | src/vector.c:501-555 | under the invariant, two positions in no common pending range are in order |
| SortSpec.CrossPairLeft | src/vector.c:537-554 | a position of the popped range and a position after it stay in order across the partition |
| SortSpec.CrossPairRight | src/vector.c:537-554 | a position before the popped range and a position in it stay in order across the partition |
| SortSpec.PairAfterPush | src/vector.c:537-554 | any two positions not pending together after the round are in order |
| SortSpec.SettledAfterPush | src/vector.c:537-554 | after the round, every pair of positions in no common pending range is in order |
| SortSpec.PartitionStep | src/vector.c:501-555 | one round of the outer loop keeps the stack invariant and shrinks the total pending size |
| ArraySort.FindRight | src/vector.c:510-517 | the right cursor stops at the left cursor or on an element below the pivot; every element it passed is at least the pivot |
| ArraySort.FindLeft | src/vector.c:519-526 | the left cursor stops at the right cursor or on an element above the pivot; every element it passed is at most the pivot |
| ArraySort.Meet | src/vector.c:505-535 | the cursors meet at a position with every element up to it at most the pivot and every element after it at least the pivot; the range is only rearranged and the pivot stays first |
| ArraySort.Partition | src/vector.c:505-540 | the range is rearranged and partitioned around the pivot's final position |
| ArraySort.Round | src/vector.c:503-554 | one round rearranges only the popped range, keeps the stack invariant and shrinks the pending size; a round only fails when a checked push fails |
| ArraySort.QuickSort | src/vector.c:496-559 | the first n slots end as a permutation of what they were; they are sorted unless a checked push failed; the slots after n are untouched |
| Vectors.RemovesGuardRejectsEmptyRun | src/vector.c:316 | the guard as written rejects removing zero elements at index 0, which the intended guard accepts |
| Vectors.RemovesGuardAdmitsWrapped | src/vector.c:316 | the guard as written accepts index SIZE_MAX with count 2 on a 5-element vector, because index + count - 1 wraps to 0 |
| Vectors.RemovesGuardAgrees | src/vector.c:316 | for a non-empty run that does not wrap, the guard as written and the intended guard agree |
| Vectors.FoldAppend | src/vector.c:160-170 | reducing a concatenation is reducing the second part from the first part's result |
| Vectors.Vector.Contents | src/vector.c:210-214 | the elements are the first length slots of the buffer |
| Vectors.Vector.Empty | src/vector.c:72-82 | a new vector has no elements and no capacity |
| Vectors.Vector.New | src/vector.c:72-82 | null when allocation fails, else a fresh empty vector |
| Vectors.Vector.Realloc | src/vector.c:41-46 | a successful reallocation gives exactly the requested capacity and keeps the elements; a failed one changes nothing |
| Vectors.Vector.Expand | src/vector.c:23-47 | success grows the capacity by one growth step; failure changes nothing; the elements stay |
| Vectors.Vector.Enough | src/vector.c:55-65 | when the capacity is already above length + count it succeeds without allocating and nothing changes; otherwise success leaves a capacity strictly above length + count, reached by repeated growth; the elements stay, and a failure can leave the capacity part-way grown |
| Vectors.Vector.Inserts | src/vector.c:270-281 | an index past the end fails without change; with the room already there it succeeds in place, on the same buffer; otherwise the run is inserted at the index with capacity above length, or the elements stay as they were and the capacity may have grown |
| Vectors.Vector.Place | src/vector.c:278-280 | shifting the tail up and copying the run into the gap makes the buffer the inserted sequence |
| Vectors.Vector.Insert | src/vector.c:290-293 | inserts one element at the index, and always succeeds in place when the index is valid and a slot is spare beyond the new length; on failure the elements stay as they were and the capacity may have grown |
| Vectors.Vector.Append | src/vector.c:301-304 | the element is added after the last one, always when the room is already there; on failure the elements stay as they were and the capacity may have grown |
| Vectors.Vector.PushFront | src/vector.c:374-379 | the element is added before the first one, always when the room is already there; on failure the elements stay as they were and the capacity may have grown |
| Vectors.Vector.PushBack | src/vector.c:387-392 | the element is added after the last one, always when the room is already there; on failure the elements stay as they were and the capacity may have grown |
| Vectors.Vector.Removes | src/vector.c:313-323 | succeeds exactly when the guard as written (`index + count - 1 < length` in `size_t`) holds. On a run inside the elements it then removes the run. On failure nothing changes. The capacity never changes |
| Vectors.Vector.RemovesIntended | src/vector.c:313-323 | the corrected operation: succeeds exactly when the run lies inside the elements, and then removes it; otherwise nothing changes; the capacity never changes |
| Vectors.RemovesGuardEmptyRun | src/vector.c:316 | for an empty run, the guard as written accepts exactly the indexes 1 to length |
| Vectors.Vector.Remove | src/vector.c:331-334 | succeeds exactly for an index below length, and then drops that element |
| Vectors.Vector.Set | src/vector.c:343-350 | succeeds exactly for an index below length, and then replaces that element |
| Vectors.Vector.Get | src/vector.c:359-366 | succeeds exactly for an index below length, and then yields that element |
| Vectors.Vector.PopFront | src/vector.c:400-409 | succeeds exactly on a non-empty vector, yielding the first element and dropping it |
| Vectors.Vector.PopBack | src/vector.c:417-426 | succeeds exactly on a non-empty vector, yielding the last element and dropping it |
| Vectors.Vector.Find | src/vector.c:459-474 | the first position from begin whose element compares equal, or INVALID_INDEX when no position from begin on matches |
| Vectors.Vector.Sort | src/vector.c:483-560 | the elements end as a permutation of what they were, sorted when the result is true; a vector of at most one element succeeds unchanged |
| Vectors.Vector.Reserve | src/vector.c:248-260 | a large enough capacity succeeds unchanged; otherwise success gives exactly the requested capacity; the elements stay |
| Vectors.Vector.Recycle | src/vector.c:232-241 | success shrinks the capacity to the length; the elements stay |
| Vectors.Vector.Clear | src/vector.c:102-110 | no elements and no capacity remain |
| Vectors.Vector.Copy | src/vector.c:117-130 | null when an allocation fails, else a fresh vector with the same elements and capacity |
| Vectors.Vector.Map | src/vector.c:139-149 | every element is replaced by the callback's result on it, and the result is true |
| Vectors.Vector.Reduce | src/vector.c:160-170 | the result is the left fold of the callback over the elements from the initial value |
| SilkVectors.Vector.Contents | src/silk/vector.c:163-167 | the elements are the first length slots of the buffer |
| SilkVectors.Vector.Empty | src/silk/vector.c:65-75 | a new vector has no elements and no capacity |
| SilkVectors.Vector.New | src/silk/vector.c:65-75 | null when allocation fails, else a fresh empty vector |
| SilkVectors.Vector.Realloc | src/silk/vector.c:41-47 | a successful reallocation gives exactly the requested capacity and keeps the elements; a failed one changes nothing |
| SilkVectors.Vector.Expand | src/silk/vector.c:23-48 | success grows the capacity by one growth step; failure changes nothing |
| SilkVectors.Vector.Enough | src/silk/vector.c:50-58 | with a free slot nothing changes and the result is true; otherwise exactly one growth step is tried |
| SilkVectors.Vector.Append | src/silk/vector.c:223-234 | the element is added after the last one, or nothing changes; with a free slot it always succeeds, on the same buffer |
| SilkVectors.Vector.Insert | src/silk/vector.c:243-256 | an index past the end fails without change; otherwise the element is inserted at the index, or nothing changes; with a free slot a valid index always succeeds, on the same buffer |
| SilkVectors.Vector.Place | src/silk/vector.c:250-254 | shifting the tail up one slot and writing the gap makes the buffer the inserted sequence |
| SilkVectors.Vector.Remove | src/silk/vector.c:264-272 | succeeds exactly for an index below length, and then drops that element |
| SilkVectors.Vector.Set | src/silk/vector.c:281-288 | succeeds exactly for an index below length, and then replaces that element |
| SilkVectors.Vector.Get | src/silk/vector.c:297-304 | succeeds exactly for an index below length, and then yields that element |
| SilkVectors.Vector.PushFront | src/silk/vector.c:312-317 | the element is added before the first one, or nothing changes; with a free slot it always succeeds |
| SilkVectors.Vector.PushBack | src/silk/vector.c:325-330 | the element is added after the last one, or nothing changes; with a free slot it always succeeds |
| SilkVectors.Vector.PopFront | src/silk/vector.c:338-349 | succeeds exactly on a non-empty vector, yielding the first element and dropping it |
| SilkVectors.Vector.PopBack | src/silk/vector.c:357-368 | succeeds exactly on a non-empty vector, yielding the last element and dropping it |
| SilkVectors.Vector.Find | src/silk/vector.c:397-412 | the first position from begin whose element compares equal, or INVALID_INDEX when none does |
| SilkVectors.Vector.Sort | src/silk/vector.c:420-496 | the elements end as a permutation of what they were, sorted unless the stack or buffer allocation failed first |
| SilkVectors.Vector.Reserve | src/silk/vector.c:202-215 | a large enough capacity succeeds unchanged; otherwise success gives exactly the requested capacity; the elements stay |
| SilkVectors.Vector.Recycle | src/silk/vector.c:185-195 | success shrinks the capacity to the length; the elements stay |
| SilkVectors.Vector.Clear | src/silk/vector.c:95-103 | no elements and no capacity remain |
| SilkVectors.Vector.Copy | src/silk/vector.c:110-123 | null when an allocation fails, else a fresh vector with the same elements and capacity |
| Lists.Node.constructor | src/silk/list.c:196-206 | a new node holds the element and the given links |
| Lists.InsertedOneAt | src/silk/list.c:191-214 | the positions of a one-element insertion: before the index unchanged, the element at it, later ones shifted up |
| Lists.RemovedOneAt | src/silk/list.c:252-271 | the positions of a one-element removal: before the index unchanged, later ones shifted down |
| Lists.DistinctInserted | src/silk/list.c:191-214 | linking in a fresh node keeps the nodes of the list distinct |
| Lists.DistinctRemoved | src/silk/list.c:252-271 | unlinking a node keeps the nodes of the list distinct |
| Lists.MarksPop | src/silk/list.c:480-481 | the popped pair of nodes are the nodes at the popped range's ends, and the rest of the stack keeps that correspondence |
| Lists.MarksPush | src/silk/list.c:520-532 | pushing the nodes at a range's ends keeps the stack of node pairs matching the stack of ranges |
| Lists.List.IndexOf | src/silk/list.c:150-183 | a node of the list has a position whose node it is |
| Lists.List.IndexUnique | src/silk/list.c:150-183 | a node of the list is at exactly one position |
| Lists.List.Length | src/silk/list.c:138-143 | the length is the number of elements |
| Lists.List.Head | src/silk/list.c:150-153 | the head is the first node, or null for the empty list |
| Lists.List.Tail | src/silk/list.c:160-163 | the tail is the last node, or null for the empty list |
| Lists.List.Prev | src/silk/list.c:170-173 | the node before the given one, or null at the head |
| Lists.List.Next | src/silk/list.c:180-183 | the node after the given one, or null at the tail |
| Lists.List.Empty | src/silk/list.c:50-61 | a new list has no nodes, and head and tail are null |
| Lists.List.New | src/silk/list.c:50-61 | null when allocation fails, else a fresh empty list |
| Lists.List.MakeFirstNode | src/silk/list.c:28-43 | on an empty list, a fresh node becomes both head and tail and the only element, or allocation fails and nothing changes |
| Lists.List.Splice | src/silk/list.c:204-213 | linking a node between two neighbours inserts it at that position and keeps the list well formed |
| Lists.List.SpliceFront | src/silk/list.c:204-213 | linking a node before the head makes it the new first node |
| Lists.List.SpliceBack | src/silk/list.c:235-244 | linking a node after the tail makes it the new last node |
| Lists.List.InsertBefore | src/silk/list.c:191-214 | a fresh node with the element is inserted just before the given node, or allocation fails and nothing changes |
| Lists.List.InsertAfter | src/silk/list.c:222-245 | a fresh node with the element is inserted just after the given node, or allocation fails and nothing changes |
| Lists.List.Unsplice | src/silk/list.c:259-268 | unlinking an inner node removes it from its position and keeps the list well formed |
| Lists.List.UnspliceFront | src/silk/list.c:259-268 | unlinking the head of a longer list drops the first node |
| Lists.List.UnspliceBack | src/silk/list.c:259-268 | unlinking the tail of a longer list drops the last node |
| Lists.List.Remove | src/silk/list.c:252-271 | the node is removed from its position, head and tail are updated, and the result is true |
| Lists.List.Set | src/silk/list.c:279-287 | the element at the node's position is replaced; no node moves |
| Lists.List.Get | src/silk/list.c:295-303 | yields the element at the node's position |
| Lists.List.At | src/silk/list.c:311-321 | the node at the index counted from the head, or null past the end |
| Lists.List.AtBackward | src/silk/list.c:329-339 | the node at the index counted from the tail, or null past the end |
| Lists.List.PushFront | src/silk/list.c:347-356 | a fresh node with the element becomes the head, or allocation fails and nothing changes |
| Lists.List.PushBack | src/silk/list.c:364-373 | a fresh node with the element becomes the tail, or allocation fails and nothing changes |
| Lists.List.PopFront | src/silk/list.c:381-390 | fails exactly on the empty list; otherwise yields the first element, drops its node and returns the new head |
| Lists.List.PopBack | src/silk/list.c:398-407 | fails exactly on the empty list; otherwise yields the last element, drops its node and returns the new tail |
| Lists.List.Find | src/silk/list.c:439-452 | the first node from begin on whose element compares equal, or null when no node from begin on matches |
| Lists.List.SwapData | src/silk/list.c:510-512 | exchanging two nodes' elements swaps those two positions of the contents; no node moves |
| Lists.List.FindRight | src/silk/list.c:488-495 | the right cursor stops at the left cursor or on an element below the pivot; every element it passed is at least the pivot |
| Lists.List.FindLeft | src/silk/list.c:497-504 | the left cursor stops at the right cursor or on an element above the pivot; every element it passed is at most the pivot |
| Lists.List.Meet | src/silk/list.c:483-513 | the cursors meet at a node with every element up to it at most the pivot and every element after it at least the pivot; only the range's elements move |
| Lists.List.Partition | src/silk/list.c:483-518 | the range's elements are rearranged and partitioned around the pivot's final node |
| Lists.List.Round | src/silk/list.c:480-532 | one round rearranges only the popped range, keeps the stack invariant and shrinks the pending size |
| Lists.List.PushParts | src/silk/list.c:520-532 | pushes the pair for the part before the pivot when the pivot is not the first node, and the pair for the part after it when it is not the last |
| Lists.List.Sort | src/silk/list.c:460-537 | no node moves; the elements end as a permutation of what they were, sorted unless the stack or buffer allocation or one of the two checked first pushes failed |
| Lists.List.Clear | src/silk/list.c:85-101 | the list is left empty |
| Lists.List.Copy | src/silk/list.c:108-119 | null when the new list cannot be allocated; otherwise fresh nodes holding a subsequence of the elements, all of them when no push failed |
| Lists.List.PushCopy | src/silk/list.c:113-117 | one step of the copy: the element is appended to the copy or, when its push fails, left out; either way the copy stays a subsequence of the elements walked, and equal to them while no push has failed |
| Lists.SubsequenceLonger | src/silk/list.c:113-117 | an element the copy fails to push leaves the copy a subsequence of what has been walked |
| Lists.SubsequenceBoth | src/silk/list.c:113-117 | an element the copy pushes keeps the copy a subsequence of what has been walked |
| Strings.CString | src/string.c:155-161 | strcmp sees the characters before the first '\0': a prefix without '\0', ending at a '\0' or at the end |
| Strings.CStringOfTerminated | src/string.c:105-110 | a text without '\0' followed by its terminator reads back as that text |
| Strings.CleanTextReads | src/string.c:105-110 | a clean text reads back as itself through the terminated buffer |
| Strings.CStringIdempotent | src/string.c:117-122 | reading what was read, after terminating it, gives the same characters |
| Strings.CStringUnique | src/string.c:117-122 | any prefix without '\0' that stops at a '\0' or the end is what strcmp sees |
| Strings.RemovesGuardRefusesTail | src/string.c:264 | the guard as written refuses a run that ends exactly at the end of the text, which the intended guard accepts |
| Strings.RemovesGuardRefusesWorld | src/string.c:264 | the guard as written refuses removing " world" from "hello world", which would leave "hello" |
| Strings.RemovesGuardAgrees | src/string.c:264 | when the run does not end exactly at the end of the text, the guard as written and the intended guard agree |
| Strings.String.Length | src/string.c:129-135 | the length is one less than the vector's length, or 0 for an empty vector |
| Strings.String.Text | src/string.c:105-110 | the text is the buffer without its terminator, and a terminated buffer is the text followed by '\0' |
| Strings.String.New | src/string.c:17-35 | null when the string or its vector cannot be allocated; otherwise the buffer holds the characters and the terminator, or nothing when that allocation fails |
| Strings.String.Clear | src/string.c:54-61 | the buffer becomes the terminator alone (the empty text), or empty when that allocation fails |
| Strings.String.Set | src/string.c:86-98 | the result is true. The buffer ends up in one of four states: the characters and the terminator; the terminator alone, when the insert fails; the characters without a terminator, when the clear's append fails; or empty, when the append fails and nothing is inserted. When it is terminated, its text is the characters or empty |
| Strings.String.At | src/string.c:169-175 | the character at the index of the text, or '\0' past its end |
| Strings.String.Equal | src/string.c:155-161 | equal texts compare equal; for texts without an inner '\0' the result is true exactly when the texts are equal |
| Strings.String.Insert | src/string.c:184-190 | the character is inserted into the text at an index up to its length, always when the vector has a slot to spare; on failure the text stays as it was and the capacity may have grown; the terminator stays last |
| Strings.String.Inserts | src/string.c:199-210 | the characters are inserted into the text at an index up to its length, always when the C string is empty or the vector has the room; on failure the text stays as it was and the capacity may have grown; the terminator stays last |
| Strings.String.Append | src/string.c:219-224 | the character is added at the end of the text, always when the vector has a slot to spare; on failure the text stays as it was and the capacity may have grown; the terminator stays last |
| Strings.String.Appends | src/string.c:233-238 | the characters are added at the end of the text, always when the C string is empty or the vector has the room; on failure the text stays as it was and the capacity may have grown; the terminator stays last |
| Strings.String.Remove | src/string.c:246-252 | succeeds exactly for an index inside the text, and then drops that character; the terminator stays last |
| Strings.String.Removes | src/string.c:261-267 | succeeds exactly when the strict guard as written (`index + length < text length`) and the vector's guard as written both hold. When the run lies inside the text it then drops the run. On failure nothing changes. The terminator stays last |
| Strings.String.RemovesIntended | src/string.c:261-267 | the corrected operation: succeeds exactly when the run lies inside the text, and then drops it; the terminator stays last |
| Strings.RemovesGuardsAsWritten | src/string.c:264 | on a terminated string, when nothing wraps, the two guards as written accept a non-empty run exactly when it ends before the end of the text, and an empty run exactly when its index is not 0 |
| Strings.String.Sub | src/string.c:70-78 | null when the run is not inside the text or the new string cannot be allocated; otherwise a fresh string whose text is the run, or empty when the copy fails |
| Strings.String.Copy | src/string.c:117-122 | null when allocation fails; otherwise a fresh string whose text is this text read as a C string, which is the empty text for a vector without storage (NULL data) |
| Strings.CopyIsEqual | src/string.c:117-122 | a copy whose allocations succeed compares equal to its original |

## Left out

- NULL arguments for the vector, list, node, string or comparator are not modelled. Each method takes a real object. Every `SILK_ASSERT(x != NULL, …)` on such an argument is left out. NULL C-string arguments and NULL hash data are modelled, as `Option.None`.
- An assert without a value in a function that returns a value is modelled as returning false, null or `INVALID_INDEX`. The C returns an indeterminate value there. Such asserts occur in `src/silk/vector.c` and `src/silk/list.c`.
- Strings.String.Inserts: when the vector insert fails, the assert at `src/string.c:207` has no value, so the C returns an indeterminate value. The model returns false.
- `silk_vector_default_compare` and `silk_list_default_compare` compare raw bytes with `memcmp`. The model takes the comparator as a parameter and does not model byte-wise comparison.
- `silk_vector_map` and `silk_vector_reduce` hand the callback a pointer to each element. The model gives the callbacks value semantics: map as a pure function on each element, and reduce as a left fold.
- Vectors.Vector.Sort: the stack pushes inside the loop are checked by the C, and the model lets them fail (`pushesMayFail`). When one fails, the contract promises only that the elements are a permutation.
- SilkVectors.Vector.Sort: the C checks none of its stack pushes: the first pair at `src/silk/vector.c:435-436` and the two in-loop pairs at `:485-486` and `:491-492`. The model assumes all of them succeed. If one push of a pair fails, the stack loses its pairing. The next pops then take a begin and an end from different ranges, or a pop fails and leaves begin as it was. Example: if only the first push of begin succeeds, the loop pops end = 0 and keeps begin = 0. Then `end - 1 > left` wraps in `size_t`, so it pushes (1, 0), then (2, 0), and so on. The base index walks past the buffer, so `silk_copy` reads and writes out of bounds. That is undefined behaviour, and the model does not capture it.
- Lists.List.Sort: the C keeps the stack of node pairs in a second silk list. The model keeps it as a sequence of node pairs. The first two pushes at `src/silk/list.c:475-476` are checked, and the model lets them fail. The in-loop pushes at `:524-525` and `:529-530` are unchecked, and the model assumes they succeed. As with the vector, one failed push of a pair would pair nodes from different ranges. The C would then walk ranges the model does not describe, which the model does not capture.
- Vectors.Vector.Recycle and SilkVectors.Vector.Recycle: on an empty vector that still holds a buffer, the C calls `realloc(data, 0)` (`src/vector.c:235`, `src/silk/vector.c:188`). glibc then frees the buffer and returns NULL. The C reports failure but keeps the freed pointer and the old capacity, so a later push writes into freed memory. C17 leaves this implementation-defined and C23 makes it undefined. The model's failure branch keeps the buffer intact and does not capture this.
- The node's pointer back to its list (`node->list`) is not modelled. The operations that take only a node are methods of the list, for a node of that list.
- `silk_vector_delete`, `silk_list_delete` and `silk_string_delete` only free memory and are left out. So is the freeing walk inside `silk_list_clear`; Clear states only the empty result.
- `src/silk/vector.c` insert and remove shift with `silk_copy` (memcpy) on overlapping ranges. The model gives that copy memmove's meaning.
- Capacities and lengths are unbounded. The multiplication `element_size * capacity` in the realloc is not modelled, nor is any other `size_t` overflow, except in the two removes guards under Findings.
- Vectors.Vector.Removes, Vectors.Vector.Remove, Strings.String.Removes and Strings.String.Remove require their `size_t` arguments to be at most `SIZE_MAX`. Vectors.Vector.PopBack requires the length to be at most `SIZE_MAX`. A C caller cannot pass more.
- Vectors.Vector.Removes: when `index + count` passes `SIZE_MAX`, the guard as written can let through a run outside the elements. The C then copies from outside the buffer and wraps the length, which is undefined behaviour. The model returns true, as the C does, but promises nothing about the elements. Strings.String.Removes inherits the same case.
- The string model keeps the state where an allocation failed and the terminator is missing. Reading past an unterminated buffer is not modelled.
- Strings.String.Copy: requires a terminated buffer, or a vector without storage, whose NULL data pointer makes a copy of the empty text. Set can leave a third state: storage with no characters and no terminator, after the inserts grew the buffer part-way and then failed. There `strlen` would read uninitialised memory, so that state is excluded.
- Strings.String.Equal: requires both buffers terminated, because `strcmp` on a NULL or unterminated buffer (`src/string.c:160`) is undefined.
- Strings.String.Sub: the C dereferences the result of `silk_string_new(NULL)` without checking it. The model returns null there.
- `src/silk/list.h:199` declares `silk_list_sort` as returning `bool`, but `src/silk/list.c` defines it as `void`. The model follows the definition. The list tests call `silk_list_map` and `silk_list_reduce`, which `src/silk/list.c` does not define; they are not modelled.
- The raw accessors (`silk_vector_data`, `silk_vector_const_data`, `silk_vector_element_size`, `silk_vector_capacity`, `silk_list_element_size`, `silk_string_data`) are not modelled as methods. They are read as fields.
- The `float` and `double` comparators of `src/silk/compare.c` are not modelled: the model has no floating point. Logging (`src/silk/log.c`) is not part of this model.
- Lists.List.MakeFirstNode requires an empty list; the C only calls it on one.
- Lists.List.Copy: when a push into the copy fails, the C skips that element and carries on. The model states only that the copy is a subsequence, and equal to the original when every push succeeds.
- Hash.Murmur3_32 reads 4-byte chunks through a `uint32_t` pointer. The model fixes a little-endian host; it does not model alignment.

## Findings

| source | as written | input that shows it | evidently intended | confidence | as-written member | corrected member |
|---|---|---|---|---|---|---|
| src/vector.c:316 | `index + count - 1 < length` in `size_t` arithmetic | `removes(v, 0, 0)` is refused; `removes(v, SIZE_MAX, 2)` on a 5-element vector is accepted, because the sum wraps to 0 | the run lies inside the elements: `index + count <= length` | not executed | Vectors.Vector.Removes (Vectors.RemovesGuardAsWritten, Vectors.RemovesGuardRejectsEmptyRun, Vectors.RemovesGuardAdmitsWrapped) | Vectors.Vector.RemovesIntended (Vectors.RemovesGuard) |
| src/string.c:264 | `index + length < silk_string_length(str)` | removing " world" (index 5, length 6) from "hello world" is refused, although it lies inside the text | the run lies inside the text: `index + length <= length of the text` | not executed | Strings.String.Removes (Strings.RemovesGuardAsWritten, Strings.RemovesGuardRefusesWorld, Strings.RemovesGuardRefusesTail) | Strings.String.RemovesIntended (Strings.RemovesGuard) |
