# AOCL-LibMem: a verified model of the vector memory and string routines

AOCL-LibMem replaces the byte loops behind `memcpy`, `memmove`, `memset`, `memcmp`, `strcmp` and
`strncmp` with vector code that over-reads, re-reads and re-writes overlapping blocks and switches
strategy on size, alignment, page position and overlap. This project models that code in Dafny and
proves that each routine does what section 7.24 of ISO/IEC 9899:2011 promises, for every size,
address, alignment and memory content, that no access leaves the memory the caller provides, and that every
aligned or streaming access is aligned. Where the code falls short of the promise (the `int` index
of `memcmp`), the exact condition is proved.

How it is modelled:

- **Memory** (`Memory.dfy`) is one flat byte array. A `Memory` object carries the sets of addresses the caller has
  made readable and writable; every load and store must stay inside them. A routine that verifies
  for every memory granting a region therefore touches nothing else. `Promises.dfy` spells this out with
  memories that grant exactly the two buffers, or exactly the pages the strings reach.
- **Alignment** (`Alignment.dfy`): an aligned or streaming access of width v needs an address
  that is a multiple of v.
- **Masks** (`Bits.dfy`) are one flag a lane; `Value` is the number a routine scans with tzcnt or adds one to,
  with register wrap-around. Narrowing casts are written out as remainders.
- **Half-finished copies and fills** are an `Overlay`: the original memory with a set of indices of
  the image already written. Two lemmas carry nearly all copy proofs: storing a piece of the image
  at its place marks it done (`Patch`), and a load that meets no written byte sees the original (`Intact`).
- **Loops** (`Overlap.dfy`, `LoadStore.dfy`) are first given their meaning for buffers that overlap in
  any way (`CopyUp`, `CopyDown`); the overlap tests are then shown to be exactly the conditions under which
  that meaning is a move.
- The unrolled accesses to consecutive vectors are one `LoadVecs` or `StoreVecs`; the three vectors of the
  strcmp entry ramp are a loop of three; code the source repeats in
  several functions (small copies, saved ends, page blocks) is one method called from each.
- `strcmp` and `strncmp` are one source built twice; the model is one method with an optional bound.
- The AVX2 and AVX-512 memmove and memset variants are one text in the register size v.

What the proofs show about the code beside its comments:

- Zen4 `memcmp` keeps the index of a difference found in its tail in an `int`, and AVX2 `memcmp`
  keeps every such index in one. `MemcmpZen4` and `MemcmpAvx2` are right exactly when there is no
  difference, or its index is below 2^31, or (Zen4) the main loop finds it; for all contents of a given size that is exactly size <= 2^31.
  Otherwise the index wraps to a negative number, in front of the buffers, or to an earlier pair of bytes, which
  agree, so that zero is returned. AVX-512 `memcmp` has no such limit.
- The comments on the 64..127 byte branch of the Zen4 copy and on the "align the src" step of the aligned-store
  memmove describe other ranges or pointers than the code, which also takes 128 bytes there and aligns the destination; the model follows the code.

## Model

| member | source | states |
|---|---|---|
| Bits.TzcntFindsFirstSet | src/uarch/zen4/strcmp_zen4.c:229 | counting trailing zeros of a lane mask finds its lowest set lane, and the mask is zero exactly when there is none |
| Bits.PlusOneFindsFirstClear | src/uarch/zen4/memcmp_zen4.c:128-130 | an equality mask plus one, with register wrap-around, is zero exactly when all lanes are equal, and otherwise its trailing-zero count is the first unequal lane |
| Bits.AllOnes | src/uarch/zen4/memcmp_zen4.c:124-127 | comparing a mask with -1 tests that no lane is clear |
| Bits.AndOfMasks | src/uarch/zen4/memcmp_zen4.c:123-130 | the conjunction of two equality masks is full exactly when both are, and equals the second when the first is full |
| Bits.Complement | src/tunable/avx2/memcmp_avx2.c:67 | 0xffff minus a 16-lane mask complements its lanes |
| Bits.XorSplit | src/tunable/avx2/memcmp_avx2.c:81-90 | the scan of an exclusive or stops in the low part of the operands, or runs on into the high part exactly when the low parts are equal |
| Bits.ToInt32IsCongruent | src/tunable/avx2/memcmp_avx2.c:188 | storing a size_t in an `int` yields the 32-bit signed number congruent to it modulo 2^32 |
| Alignment.AlignmentMeaning | src/base_impls/load_store_avx2_impls.h:37-43 | an aligned or streaming access of 32 or 64 bytes needs an address divisible by 32 or 64 |
| Alignment.SameLowBits | src/uarch/zen4/memcpy_impl_zen4.c:80-86 | two addresses with equal low bits are aligned at the same offsets, so the branch on equal low bits may use aligned loads with aligned stores |
| Alignment.LowBitsAlign | src/tunable/avx2/memmove_avx2.c:192-211 | subtracting the low bits, or going up by v minus them, reaches a multiple of v |
| Memory.Memory.GrantMeaning | src/base_impls/load_store_impls.h:101-113 | every byte an access asks for exists and is one the caller granted |
| Memory.Memory.Load | src/base_impls/load_store_avx512_impls.h:38-40 | a load returns the bytes at its address, which must be readable and, for aligned and streaming loads, aligned |
| Memory.Memory.Store | src/base_impls/load_store_avx512_impls.h:42-44 | a store changes exactly the bytes at its address, which must be writable and, for aligned and streaming stores, aligned |
| Memory.Memory.LoadMasked | src/uarch/zen4/strcmp_zen4.c:80-84 | a masked load reads only the lanes in the mask and fills the others |
| Memory.Memory.StoreMasked | src/uarch/zen4/memset_zen4.c:48-49 | a masked store writes only the lanes in the mask |
| Memory.Memory.LoadVecs | src/base_impls/load_store_impls.h:191-194 | consecutive vector loads return the whole run of bytes, each access aligned |
| Memory.Memory.StoreVecs | src/base_impls/load_store_impls.h:196-199 | consecutive vector stores write the whole run of bytes, each access aligned |
| Memory.Patch | src/base_impls/load_store_impls.h:258-268 | storing a piece of the image at its place marks it as done, whatever overlapping pieces were stored before |
| Memory.Intact | src/base_impls/load_store_impls.h:187-219 | a load that meets no byte written so far sees the original bytes |
| Overlap.CopyUpIsMoved | src/base_impls/load_store_impls.h:187-202 | the forward loop's passes are a move when the destination is not inside the source range |
| Overlap.CopyDownIsMoved | src/base_impls/load_store_impls.h:204-219 | the backward loop's passes are a move when the source is not inside the destination range |
| Overlap.CopyUpExact | src/tunable/avx2/memmove_avx2.c:52-80 | forward passes are right for all memory contents if and only if the destination is not strictly inside the source range or one pass does it all: the direction test is necessary |
| Overlap.CopyDownExact | src/tunable/avx2/memmove_avx2.c:52-66 | the mirror image for backward passes |
| LoadStore.HeadTail | src/base_impls/load_store_impls.h:249-255 | the 2x head-and-tail copy is a move for sizes w..2w, whatever the overlap of the buffers and of the two blocks |
| LoadStore.TailHead | src/base_impls/load_store_avx2_impls.h:115-135 | so is the scalar form that stores the tail before the saved head |
| LoadStore.HeadTailVecs | src/base_impls/load_store_impls.h:258-290 | the 4x and 8x head-and-tail copies write both ends with the bytes loaded before any store, and are a move when the ends meet |
| LoadStore.LoopForward | src/base_impls/load_store_impls.h:187-246 | the 4x and 8x forward loops perform ascending passes for any overlap, stop within one step of the bound, stay aligned, and move the bytes when the destination is not inside the source range |
| LoadStore.LoopBackward | src/base_impls/load_store_impls.h:204-219 | the backward loop leaves 1..floor bytes, performs descending passes for any overlap, stays aligned, and moves the bytes when the source is not inside the destination range |
| LoadStore.PatchMoved | src/uarch/zen4/memcpy_impl_zen4.c:88-94 | a block move inside a half-finished copy does its part when the bytes it reads were not overwritten |
| LoadStore.MaskedCopy | src/base_impls/load_store_avx512_impls.h:52-63 | the masked copy of 0..64 bytes is a move |
| LoadStore.CopyBelowZmm | src/base_impls/load_store_avx512_impls.h:172-218 | the nested-if copy of 0..63 bytes is a move |
| LoadStore.CopyUpTo2Ymm | src/base_impls/load_store_avx2_impls.h:99-150 | the overlap-safe copy of 0..64 bytes is a move |
| LoadStore.CopyUpTo2Zmm | src/base_impls/load_store_avx512_impls.h:114-166 | the overlap-safe switch copy of 0..128 bytes is a move |
| LoadStore.LzcntOfSmallSize | src/base_impls/load_store_avx512_impls.h:122-164 | the leading-zero switch sorts sizes 0..128 by their highest bit |
| MemcpyZen4.Memmove | src/uarch/zen4/memcpy_impl_zen4.c:36-185 | dst[0..size) becomes the old src[0..size), all else is unchanged and dst is returned, for every overlap, alignment, cache size and threshold; accesses stay in the buffers |
| MemcpyZen4.Memcpy | src/uarch/zen4/memcpy_impl_zen4.c:39-185 | the same for disjoint buffers in the restrict build, whatever strategy is chosen |
| MemcpyZen4.BackwardCopy | src/uarch/zen4/memcpy_impl_zen4.c:70-97 | the downward copy with the last vector saved is a move although dst+size is unaligned |
| MemcpyZen4.ForwardCopy | src/uarch/zen4/memcpy_impl_zen4.c:98-121 | the upward copy from the first aligned destination address with the first vector saved is a move |
| MemcpyZen4.CopyRemainder | src/uarch/zen4/memcpy_impl_zen4.c:88-117 | the 0..256 bytes a loop leaves are moved whatever their overlap |
| MemcpyZen4.CopyDisjoint | src/uarch/zen4/memcpy_impl_zen4.c:148-184 | head, middle loop and tail cover exactly [0,size), whatever strategy is selected |
| MemcpyZen4.MiddleLoop | src/uarch/zen4/memcpy_impl_zen4.c:152-183 | under each of the five strategies the middle loop moves one range from the first aligned destination offset to within 256 bytes of the end, every aligned and streaming access aligned |
| MemmoveTunable.MoveUpTo8 | src/tunable/avx2/memmove_avx2.c:29-41 | at most eight vectors are moved whatever the overlap |
| MemmoveTunable.BackwardBranch | src/tunable/avx2/memmove_avx2.c:93-110 | saving the first four vectors, and the last one when the loop starts below the end, completes the backward loop to a move |
| MemmoveTunable.ForwardBranch | src/tunable/avx2/memmove_avx2.c:156-175 | saving the last four vectors, and the first one when the loop starts above the beginning, completes the forward loop to a move |
| MemmoveTunable.MemmoveUnaligned | src/tunable/avx2/memmove_avx2.c:44-82 | memmove's promise for every size and overlap, v = 32 and 64 |
| MemmoveTunable.MemmoveAligned | src/tunable/avx512/memmove_avx512.c:84-125 | memmove's promise for aligned pointers |
| MemmoveTunable.MemmoveAlignedLoad | src/tunable/avx2/memmove_avx2.c:127-177 | memmove's promise for all pointers, with every aligned load aligned |
| MemmoveTunable.MemmoveAlignedStore | src/tunable/avx2/memmove_avx2.c:179-229 | memmove's promise for all pointers, with every aligned store aligned |
| MemmoveTunable.MemmoveNt | src/tunable/avx512/memmove_avx512.c:231-259 | memmove's promise for aligned pointers, falling back when the buffers overlap or touch |
| MemmoveTunable.MemmoveNtLoad | src/tunable/avx2/memmove_avx2.c:261-296 | memmove's promise for all pointers, with every streaming load aligned |
| MemmoveTunable.MemmoveNtStore | src/tunable/avx2/memmove_avx2.c:299-334 | memmove's promise for all pointers, with every streaming store aligned |
| Memcmp.FirstDiff | tools/validator/libmem_validator.c:354-360 | the index found is the least at which the buffers differ, or their length |
| Memcmp.ReferenceMemcmp | tools/validator/libmem_validator.c:354-360 | the validator's byte loop computes the specification |
| Memcmp.Expected | tools/validator/libmem_validator.c:354-360 | memcmp's result is the byte at p1 minus the byte at p2 at the first difference, as unsigned values, or zero |
| Memcmp.LanesFindFirstDiff | src/uarch/zen4/memcmp_zen4.c:50-53 | the first set lane of the inequality mask, the first clear lane of the equality mask and the first differing byte coincide |
| Memcmp.UnequalScan | src/tunable/avx2/memcmp_avx2.c:64-78 | one vector comparison yields zero exactly when the vectors agree, else a number whose trailing-zero count is the first difference, in all three mask styles |
| Memcmp.ScanVecs | src/tunable/avx512/memcmp_avx512.c:229-260 | consecutive vector comparisons stop at the first difference or prove the range equal; re-reading matched bytes is harmless |
| MemcmpSmall.XorScanFindsFirstDiff | src/tunable/avx512/memcmp_avx512.c:73-84 | for two little-endian scalars, the trailing-zero count of their exclusive or divided by eight is the first differing byte, and it runs off the operand exactly when they are equal |
| MemcmpSmall.ScalarEnds | src/tunable/avx512/memcmp_avx512.c:47-85 | comparing a scalar at each end gives the byte loop's result for sizes n..2n |
| MemcmpSmall.VectorEnds | src/tunable/avx512/memcmp_avx512.c:86-138 | so does comparing a vector at each end |
| MemcmpSmall.UpTo2Zmm | src/tunable/avx512/memcmp_avx512.c:32-139 | the byte loop's result for 0..128 bytes |
| MemcmpSmall.UpTo2Ymm | src/tunable/avx2/memcmp_avx2.c:32-124 | the byte loop's result for 0..64 bytes; its last return is never reached |
| MemcmpRoutines.NarrowedIndex | src/tunable/avx2/memcmp_avx2.c:188-189 | an index below 2^31 survives `int`; one above becomes a negative number, in front of the buffers, or an earlier index |
| MemcmpRoutines.NarrowedExamples | src/tunable/avx2/memcmp_avx2.c:188-189 | 2^32 + 10 becomes 10, where the bytes agree and zero is returned; 2^31 + 10 becomes -2^31 + 10 |
| MemcmpRoutines.ByteDiffInt | src/tunable/avx2/memcmp_avx2.c:188-189 | reading at an index that went through `int` gives the right result exactly when the index is below 2^31, and otherwise leaves the buffers or returns zero for buffers that differ |
| MemcmpRoutines.MemcmpAvx512 | src/tunable/avx512/memcmp_avx512.c:141-508 | the byte loop's result for every size, in all three variants, within the buffers |
| MemcmpRoutines.MemcmpAvx2 | src/tunable/avx2/memcmp_avx2.c:126-532 | the byte loop's result if and only if there is no difference or its index is below 2^31, so for every size up to 2^31, and what happens otherwise, in all three variants |
| MemcmpRoutines.MemcmpZen4 | src/uarch/zen4/memcmp_zen4.c:33-210 | the byte loop's result if and only if there is no difference, or the loop finds it, or its index is below 2^31, so for every size up to 2^31, and what happens otherwise |
| MemcmpRoutines.ScanPair | src/uarch/zen4/memcmp_zen4.c:117-130 | testing two comparisons together and telling them apart by the first mask finds the first difference |
| MemcmpRoutines.TailZen4 | src/uarch/zen4/memcmp_zen4.c:158-209 | the narrowed counters lose nothing and the fall-through tail finds any remaining difference |
| MemcmpRoutines.LoopZen4 | src/uarch/zen4/memcmp_zen4.c:114-153 | the main loop reports a difference in its range whatever the index and leaves at most 128 bytes |
| MemcmpRoutines.SmallestFailure | src/uarch/zen4/memcmp_zen4.c:201-206 | buffers of 2^31 + 1 bytes that differ in the last only: the index becomes -2^31 |
| MemcmpRoutines.IntIndexSizeLimit | src/uarch/zen4/memcmp_zen4.c:40-205 | the two conditions above hold for all contents of a size exactly when it is at most 2^31 |
| Memset.FilledBytes | src/uarch/zen4/memset_zen4.c:44 | byte by byte, the buffer holds val modulo 256 and everything else is unchanged |
| Memset.StoreRun | src/uarch/zen4/memset_zen4.c:68-71 | stores of the broadcast register mark exactly their indices as filled, each access aligned as its kind demands |
| Memset.FillLoop | src/uarch/zen4/memset_zen4.c:82-106 | the aligned do-while loop, in ymm or zmm stores, fills up to an offset in [size-256, size] |
| Memset.FillUpTo4Zmm | src/uarch/zen4/memset_zen4.c:53-66 | sizes 65..256 are filled by one or two vectors at each end |
| Memset.StoreTail | src/uarch/zen4/memset_zen4.c:111-128 | the narrowed counters lose nothing and the fall-through stores cover the last 1..256 bytes |
| Memset.MemsetZen4 | src/uarch/zen4/memset_zen4.c:35-130 | each byte of mem[0..size) becomes val modulo 256 and no other byte changes, for every size, alignment and cache size |
| Memset.ShiftedBytes | src/tunable/avx2/memset_avx2.c:58-66 | shifting and or-ing a byte repeats it in each byte of the scalar |
| Memset.FillUpTo2Ymm | src/tunable/avx2/memset_avx2.c:31-75 | 0..64 bytes are filled by two overlapping stores or one byte |
| Memset.FillUpTo2Zmm | src/tunable/avx512/memset_avx512.c:31-50 | 0..128 bytes are filled by a masked store or two overlapping stores |
| Memset.MemsetUnaligned | src/tunable/avx2/memset_avx2.c:77-116 | each byte of mem[0..size) becomes val modulo 256 and no other byte changes, v = 32 and 64 |
| Memset.MemsetAligned | src/tunable/avx512/memset_avx512.c:94-186 | the aligned_store and nt_store variants set each byte of mem[0..size) to val modulo 256 and change no other, offset plus the remaining size stays the size, and every aligned or streaming store is aligned |
| Strcmp.LoopStops | tools/validator/libmem_validator.c:407-413 | where the strings first differ or both end, below the bound, the byte loop returns the unsigned difference |
| Strcmp.LoopExhausts | src/uarch/zen4/strcmp_zen4.c:42-45 | strings that agree without ending up to the bound compare as zero |
| Strcmp.LoopMeaning | tools/validator/libmem_validator.c:407-413 | a result that matches the byte loop is the difference of the bytes at the stop below the bound, and zero when the strings agree up to the bound |
| Strcmp.ReferenceStrcmp | tools/validator/libmem_validator.c:407-413 | the validator's pointer loop computes the specification and ends |
| Strcmp.LanesLocateStop | src/uarch/zen4/strcmp_zen4.c:57-62 | the first lane that is zero or unequal is the stop; lanes masked off in both registers never stop the scan |
| Strcmp.MaskedMoveKeepsStops | src/base_impls/load_compare_impls.h:62-64 | the zero lanes after the masked move are exactly the stop lanes |
| Strcmp.ReductionIsZero | src/base_impls/load_compare_impls.h:78-80 | the reduced vector has no zero lane exactly when none of the four vectors has a stop |
| Strcmp.CompareReduce4 | src/base_impls/load_compare_impls.h:60-98 | the 4x reduction ends with offset plus the lowest one of ret at the first stop of the 256 bytes, or with ret zero and offset advanced by 256 exactly when there is none |
| Strcmp.ScanVector | src/uarch/zen4/strcmp_zen4.c:116-118 | one vector pair: zero when all 64 bytes pass, else the lowest one is the stop |
| Strcmp.ScanMasked | src/uarch/zen4/strcmp_zen4.c:190-194 | the same for a step of 1..63 bytes, reading only those |
| Strcmp.ScanBlock | src/uarch/zen4/strcmp_zen4.c:148-168 | a page-bounded block of vectors is scanned in fours and singles without gap, aligned when the path is |
| Strcmp.HandOver | src/uarch/zen4/strcmp_zen4.c:51-105 | the hand-over offset never exceeds the bytes the first, possibly masked, vector compared |
| Strcmp.AlignedStaysInPage | include/almem_defs.h:45-46 | at an aligned address whole vectors, at least one, remain to the page end |
| Strcmp.FirstVector | src/uarch/zen4/strcmp_zen4.c:51-105 | the first vector settles the result or hands over an offset at or below the bytes compared, below the bound |
| Strcmp.ReturnValue | src/uarch/zen4/strcmp_zen4.c:228-234 | at a stop the difference there is returned, or zero when it is at or beyond the bound |
| Strcmp.AlignedPath | src/uarch/zen4/strcmp_zen4.c:110-173 | the aligned path computes the byte loop's result, ends, and loads at aligned addresses of mapped pages only |
| Strcmp.UnalignedPath | src/uarch/zen4/strcmp_zen4.c:175-226 | the unaligned path computes the byte loop's result, ends, and loads from mapped pages only |
| Strcmp.Compare | src/uarch/zen4/strcmp_zen4.c:34-235 | strcmp and strncmp return the byte loop's result, which is the unsigned difference at the stop or zero at the bound, for any two addresses and every bound, reading only 4096-byte pages that hold a byte the byte loop looks at |
| Promises.CompareTouchesOnlyReachedPages | src/uarch/zen4/strcmp_zen4.c:34-235 | the same in a memory that grants exactly those pages of 4096 bytes |
| Promises.MemmoveTouchesOnlyBuffers | src/uarch/zen4/memcpy_impl_zen4.c:36-185 | memmove in a memory that grants exactly the two buffers |
| Promises.MemsetTouchesOnlyBuffer | src/uarch/zen4/memset_zen4.c:35-130 | memset in a memory that grants exactly the buffer, for writing: each byte of it becomes val modulo 256 |
| Promises.ReachedMeaning | src/uarch/zen4/strcmp_zen4.c:139-179 | the byte loop looks at an index exactly when it is below the bound and all earlier pairs of bytes are equal and not NUL |
| Promises.TerminatedStringsSuffice | src/uarch/zen4/strcmp_zen4.c:138-169 | two NUL-terminated strings on mapped pages meet the precondition for every bound, and the comparison stops by the end of the shorter |
| Promises.BoundedComparison | src/uarch/zen4/strcmp_zen4.c:228-234 | strncmp equals strcmp when the stop is below the bound and is zero otherwise |
| Promises.StrcmpIsMemcmp | tools/validator/libmem_validator.c:354-413 | strcmp equals memcmp of the bytes up to and including the stop |
| Promises.MemcmpSign | tools/validator/libmem_validator.c:354-360 | memcmp is the first byte that differs at p1 minus the one at p2, and its sign is their order |
| Promises.StrcmpSign | tools/validator/libmem_validator.c:407-413 | strcmp is the byte of the first string minus that of the second at the stop, and its sign is their order |
| Promises.MemcmpOrders | tools/validator/libmem_validator.c:354-360 | memcmp is zero exactly for equal buffers and changes sign when they are exchanged |
| Promises.MoveMeaning | tools/validator/libmem_validator.c:346-352 | after a move the destination holds the former source bytes in order, memcmp of the two is zero and nothing outside the destination changed |
| Promises.SaveFillRestore | src/uarch/zen4/memset_zen4.c:35-130 | moving a buffer away, filling it and moving it back restores it |

## Left out

- Prefetch hints, caching, write combining and the ordering of streaming stores: streaming accesses are ordinary ones with an alignment condition, and the compiler barrier between sequential loads and stores is nothing.
- Address wrap-around at the top of the address space: addresses are natural numbers.
- MemcmpRoutines.MemcmpZen4: `movemask + 1` on the mask 0x7fffffff overflows `int`, which C leaves undefined; the model takes the wrap-around compilers produce. The same holds for the AVX2 variants.
- LoadStore.LoopBackward: the registers of one pass are loaded and stored in ascending order, the source uses descending order; they lie side by side and all loads of a pass precede its stores.
- The two-vector and 8zmm loop wrappers of the base headers: no modelled routine calls them.
- The enhanced `rep movsb` and `rep stosb` code and the size-threshold dispatchers: foreign instructions and one level of branching.
- Tunable memcpy and mempcpy: the head, tail and middle-loop argument of `CopyDisjoint` again.
- The aliases that give other variant names to the same memcmp and memset bodies.
- The other Zen4 string routines (strcpy, strlen, strchr, strstr and their bounded forms): not modelled.
- CPU detection, cache and threshold set-up, symbol resolution and logging: the L2 size and the non-temporal threshold are arbitrary numbers.
- Strict aliasing and the alignment of scalar accesses, which the target processors do not require.
