# Verified models of the benchmark and CoreMark programs

The repository holds a RISC-V core and the software that runs on it. This project models that
software in Dafny, program by program, and proves what each of them is for.

* **Barrier, BarrierProgress**: the sense-reversing barrier of `util.h` as a state machine over
  its accesses to the shared words, for any number of threads and any schedule: safety over
  every run, refinement of an ideal barrier, no deadlock, an exact step count, and liveness
  under fairness.
* **VvAdd, MatMul, MatMulProgress**: the two multi-threaded kernels on top of it, with shared
  memory: no data race in any interleaving, the right results, and termination.
* **Checker**: the `verify` functions that decide the exit codes.
* **CoreList, Merging, ListSort, BenchList**: CoreMark's linked list on heap nodes: reverse,
  find, remove, undo, and the bottom-up merge sort whose comparators change the data they
  compare, up to the claim that the benchmark gives the list back, with the exact conditions
  under which it does.
* **ListIndex, ListInit, CoreMain**: how that list is built, when its indices tie, and the
  iterations of the benchmark over it.
* **BlockedMultiply**: `mm`, with its two levels of tiling, packed copies, register block and edge
  strips, against one triple sum over exact reals.
* **QuickSort, RadixSort**: the in-place quicksort with its explicit stack, and the four-pass radix
  sort.
* **Hanoi, Towers**: the puzzle and its recursive solution, and the program that plays it on linked
  lists sharing one pool of nodes.
* **Crc32**: the bit-serial checksum against the table-driven CRC-32 of RFC 1952, its residue, and
  the bursts it detects.
* **Gf2, Crc16**: the 16-bit CRC of `core_util.c` as division by x^16+x^15+x^2+1.
* **Tokens, StateMachine, Patterns**: CoreMark's number scanner against the languages of its tokens,
  and its benchmark with corruption and undo.
* **Numerals, Printf**: `printnum`, the %d conversion and `atol`, and when reading gives back what
  was printed.
* **Arith, BitOps, MachineTypes**: a few facts of integer arithmetic and of bitwise operations on
  bytes, and the fixed-width integers.

`dafny verify dfyconfig.toml` checks everything.

Conventions. Concurrency: one step makes at most one access to memory that some thread writes, a
schedule is a sequence of thread numbers, and memory is sequentially consistent, which the fences
at both ends of `barrier` provide. A strided buffer is an array of rows. The 16-bit data word of a
CoreMark list node is its two bytes. Calls into the inner benchmarks of `calc_func` return
arbitrary 16-bit words.

Where the code and its comments disagree, the code is modelled:

* `core_list_join.c` lines 125-131 say that the list is back in its original state. It is exactly
  when its indices ascend, nodes with tied indices still stand in their entry order when the last
  sort starts, and the two bytes of every data word agreed (`BenchList.BenchList`). A tie can go
  either way (`BenchList.MissingRunReturnsIff`, `BenchList.TieComesBackSwapped`).
* Line 251 there wants the mixed indices after the ones in sequence. They are not for every seed
  (`ListIndex.SevenTies`), and past a size of 322 they tie among themselves (`ListIndex.ApartIff`); for
  the configured seeds and their size of 31 there is no tie (`ListIndex.ShippedApart`,
  `ListIndex.ProfileApartIff`), so the list survives every iteration (`CoreMain.RunList`).
* `core_state.c` line 104 lists "-87e+832" as scientific; the scanner rejects it
  (`Patterns.PatternMeans`). Line 82 promises the undo when the seeds agree; a byte that became a
  comma is not undone (`StateMachine.RestoredIff`, `Patterns.CommaStays`,
  `Patterns.TerminatorLost`), which the configured seeds avoid (`Patterns.ShippedBlockReturns`).
* `rsort.c` lines 97-98 would copy the wrong way round; they are unreachable (`RadixSort.Sort`).
* `syscalls.c` calls `-` the flag to pad on the right; numbers are padded on the left with minus
  signs (`Printf.AtolReadsBackIff`, `Printf.DashesMisread`).

## Model

| member | source | states |
|---|---|---|
| `Barrier.StepKeepsPhase` | test/stimulus/riscv-tests/benchmarks/common/util.h:52-59 | every atomic step of every thread keeps the barrier invariant, and only the store to `sense` moves it to the next phase |
| `Barrier.FetchAddKeepsPhase` | test/stimulus/riscv-tests/benchmarks/common/util.h:53 | the fetch-add that makes a thread the last arrival finds every other thread spinning in the same call |
| `Barrier.RunKeepsInv` | test/stimulus/riscv-tests/benchmarks/common/util.h:44-62 | the invariant holds after every schedule of every number of threads, across unboundedly many reuses of the barrier |
| `Barrier.Safety` | test/stimulus/riscv-tests/benchmarks/common/util.h:44-62 | in every interleaving nobody has returned from a call before everybody has arrived in it, completed calls differ by at most one, and `count` stays in 0..n |
| `Barrier.OutsideAgree` | test/stimulus/riscv-tests/benchmarks/common/util.h:44-62 | two threads that are both outside the barrier have completed equally many calls, so code between barriers overlaps only with code of the same phase |
| `Barrier.ResetLosesNothing` | test/stimulus/riscv-tests/benchmarks/common/util.h:55-56 | when `count` is cleared it holds all n arrivals, and until `sense` is published no other thread can move |
| `Barrier.SpinnerReleasedIff` | test/stimulus/riscv-tests/benchmarks/common/util.h:58 | a spinner can leave exactly when somebody has already returned from its call |
| `BarrierProgress.StepRefinesIdeal` | test/stimulus/riscv-tests/benchmarks/common/util.h:44-62 | each step of the shared-word protocol is an arrival, a return that an ideal barrier allows, or invisible |
| `BarrierProgress.RunRefinesIdeal` | test/stimulus/riscv-tests/benchmarks/common/util.h:44-62 | for every schedule the calls arrived in and returned from, seen step by step, are a run of the ideal barrier |
| `BarrierProgress.NoDeadlock` | test/stimulus/riscv-tests/benchmarks/common/util.h:52-59 | in every unfinished state some thread has a step that is not a failed spin |
| `BarrierProgress.CostOfRun` | test/stimulus/riscv-tests/benchmarks/common/util.h:52-59 | n threads making k calls take at most k(3n+1) steps that are not failed spins, and exactly that many if and only if all calls have returned |
| `BarrierProgress.FairRunFinishes` | test/stimulus/riscv-tests/benchmarks/common/util.h:52-59 | every schedule of k(3n+1) rounds that each give every thread a turn completes all k calls of all n threads |
| `Checker.Verify` | test/stimulus/riscv-tests/benchmarks/common/util.h:12-26 | returns 0 exactly when the vectors agree, otherwise one more than the first index at which they differ |
| `Checker.VerifyDouble` | test/stimulus/riscv-tests/benchmarks/common/util.h:28-42 | the same for the variant that compares a pair before it tests either result |
| `VvAdd.StepKeepsInv` | test/stimulus/riscv-tests/benchmarks/mt-vvadd/mt-vvadd.c:47-78 | every step of every thread keeps what is known of the shared vector in each of the six phases |
| `VvAdd.NoDataRace` | test/stimulus/riscv-tests/benchmarks/mt-vvadd/mt-vvadd.c:47-78 | in no interleaving is one thread about to write an element that another is about to read or write |
| `VvAdd.WritesAreAll` | test/stimulus/riscv-tests/benchmarks/mt-vvadd/vvadd.c:14-17 | the declared write footprint is the true one: a step changes no other element |
| `VvAdd.ReadsAreAll` | test/stimulus/riscv-tests/benchmarks/mt-vvadd/vvadd.c:14-17 | the declared read footprint is the true one: other elements have no influence on what a step does |
| `VvAdd.CheckerSeesSums` | test/stimulus/riscv-tests/benchmarks/mt-vvadd/mt-vvadd.c:56-59 | in every interleaving each element thread 0 compares holds x+y, in the out-of-place and in the in-place round |
| `VvAdd.ExitCodeIsVerdict` | test/stimulus/riscv-tests/benchmarks/mt-vvadd/mt-vvadd.c:56-77 | whenever the program has exited its code is the verdict of the check, 0 if and only if the reference vector is the sum |
| `VvAdd.NoDeadlock` | test/stimulus/riscv-tests/benchmarks/mt-vvadd/mt-vvadd.c:47-78 | until the exit some thread has a step that changes the state |
| `VvAdd.FairRunHalts` | test/stimulus/riscv-tests/benchmarks/mt-vvadd/mt-vvadd.c:47-78 | every fair schedule of more than 7n(3L+8) rounds, L being the vector length, ends the program with that verdict and the sums in memory |
| `MatMul.AdvanceCountsOne` | test/stimulus/riscv-tests/mt/ae_matmul.c:39-108 | the loop position determines how many barrier calls a core has made: each turn of either loop nest adds exactly one |
| `MatMul.BufferComplete` | test/stimulus/riscv-tests/mt/ae_matmul.c:39-44 | when some core multiplies, every owned row of the buffer is a full column of B |
| `MatMul.MultiplyIsDot` | test/stimulus/riscv-tests/mt/ae_matmul.c:53-101 | each of the 32 unrolled multiply-adds extends the dot product of its accumulator by exactly the next term |
| `MatMul.DotUnit` | test/stimulus/riscv-tests/mt/ae_matmul.c:53-101 | without rounding, a row against a unit column gives the row's element there |
| `MatMul.DotLinear` | test/stimulus/riscv-tests/mt/ae_matmul.c:53-101 | without rounding, the product is linear in the columns of B |
| `MatMul.StepKeepsInv` | test/stimulus/riscv-tests/mt/ae_matmul.c:38-108 | every step of every core keeps the invariant of all cores |
| `MatMul.NoDataRace` | test/stimulus/riscv-tests/mt/ae_matmul.c:38-108 | no interleaving has conflicting accesses to the shared buffer or to the result: each element of C is written by one core |
| `MatMul.ReadsOnlyTransposed` | test/stimulus/riscv-tests/mt/ae_matmul.c:49-98 | a multiplying core reads only finished columns of B, whatever the buffer held before |
| `MatMul.ResultIsProduct` | test/stimulus/riscv-tests/mt/ae_matmul.c:38-108 | when all cores have returned they have made equally many barrier calls and every element of an owned row and column is the full dot product |
| `MatMul.CoveredIffDivides` | test/stimulus/riscv-tests/mt/ae_matmul.c:40-47 | the owned rows are all rows if and only if the number of cores divides lda |
| `MatMulProgress.NoDeadlock` | test/stimulus/riscv-tests/mt/ae_matmul.c:38-108 | until all cores have returned some core has a step that changes the state |
| `MatMulProgress.FairRunMultiplies` | test/stimulus/riscv-tests/mt/ae_matmul.c:38-108 | with n dividing lda, every fair schedule of n(calls+1)(4lda+8) rounds makes all cores return with C = A*B |
| `CoreList.Reverse` | software/app/CoreMark/src/core_list_join.c:395-404 | the list comes back as the reversed sequence of the same nodes |
| `CoreList.Find` | software/app/CoreMark/src/core_list_join.c:370-380 | returns the first node that matches the index, or the data byte for a negative index, or null if there is none |
| `CoreList.Remove` | software/app/CoreMark/src/core_list_join.c:316-327 | unlinks the next node, exchanges the two data items, and leaves all else as it was |
| `CoreList.UndoRemove` | software/app/CoreMark/src/core_list_join.c:345-355 | undoes the removal: the node is back in its place and the data items are exchanged again |
| `CoreList.CalcFunc` | software/app/CoreMark/src/core_list_join.c:63-95 | returns the seven-bit key that the data word caches from then on. A cached word changes nothing; an uncached one of operation 2 to 7 has its own low bits and is folded into the CRC; one of operation 0 or 1 makes exactly one inner call, on the doubled data bits, raised to 0x22 for operation 0, and its result is cached, folded into the CRC and kept if it is the first |
| `CoreList.Compare` | software/app/CoreMark/src/core_list_join.c:101-118 | both comparators return the difference of the keys as they are afterwards, and settle both data words for good |
| `Merging.AppendRun` | software/app/CoreMark/src/core_list_join.c:439-482 | appending a sorted run built from the next two runs keeps the output a sequence of sorted runs of twice the size |
| `Merging.SortUnique` | software/app/CoreMark/src/core_list_join.c:426-496 | a stable order has only one sorted arrangement of given elements |
| `ListSort.CompareNodes` | software/app/CoreMark/src/core_list_join.c:463 | a comparison fixes the keys of both nodes and never changes a key that an earlier comparison fixed |
| `ListSort.MergeOne` | software/app/CoreMark/src/core_list_join.c:454-478 | one turn of the merge loop moves the right head node to the output, and the output stays sorted and stable |
| `ListSort.PairMerged` | software/app/CoreMark/src/core_list_join.c:442-481 | a merged pair of runs extends the output by one sorted run of twice the size |
| `ListSort.Pass` | software/app/CoreMark/src/core_list_join.c:432-487 | one pass leaves a linked list of the same nodes in sorted runs of twice the size, a single run if it made one merge |
| `ListSort.MergeSort` | software/app/CoreMark/src/core_list_join.c:426-496 | terminates with the same nodes, acyclic, stably sorted by the keys as the comparators leave them; from two nodes on every data word is settled, whatever the inner benchmarks return; the uncached nodes get their keys one after the other, and the results record has gone through them in that order |
| `ListSort.SortedNow` | software/app/CoreMark/src/core_list_join.c:426-496 | the order established while keys were still being computed is the order by the final keys, and no node of a list of two or more stays uncompared |
| `ListSort.ComputedInTurn` | software/app/CoreMark/src/core_list_join.c:69-95 | the key of each node that the sort asks is that of `calc_func` in its turn, with the results record as the nodes before it left it |
| `ListSort.DistinctCalls` | software/app/CoreMark/src/core_list_join.c:74-87 | two nodes of operation 0 or 1 have the results of different inner calls, both of this sort |
| `ListSort.AfterAllCrc` | software/app/CoreMark/src/core_list_join.c:92 | the CRC of the results has gone through all computed values in order |
| `BenchList.MoveNext` | software/app/CoreMark/src/core_list_join.c:157-162 | the successor of the found node becomes the second node and nothing else moves |
| `BenchList.MovedOne` | software/app/CoreMark/src/core_list_join.c:157-162 | in the new order that node is second, and without it the order is the old one without it |
| `BenchList.FindRound` | software/app/CoreMark/src/core_list_join.c:144-166 | one turn of the find loop: which node is found, the reversed list with its successor moved up, and what the turn adds to the result |
| `BenchList.RoundScoreOfWords` | software/app/CoreMark/src/core_list_join.c:148-156 | a hit counts four and bit 9 of an odd data word, a miss bit 8 of the second word less one |
| `BenchList.FindLoop` | software/app/CoreMark/src/core_list_join.c:143-170 | order, search index and `retval` after all turns, for every find count, are those of the loop on values, including 16-bit wrap-around; the data items are unchanged |
| `BenchList.IdxAtIs` | software/app/CoreMark/src/core_list_join.c:163-164 | the search index counts up to 32767, wraps once and then stays; a negative one never changes |
| `BenchList.CrcWalk` | software/app/CoreMark/src/core_list_join.c:177-182 | the walk adds the CRC of the first data item once per remaining node |
| `BenchList.CrcTimesDivides` | software/app/CoreMark/src/core_list_join.c:179-182 | that is, it divides on through the sixteen bits of the data word once per remaining node |
| `BenchList.WalkLengthIs` | software/app/CoreMark/src/core_list_join.c:175-182 | it meets the nodes from the first match on, or all but the head if there is none, the removed one left out |
| `BenchList.RemoveAndUndo` | software/app/CoreMark/src/core_list_join.c:174-186 | removal, walk and undo leave the list and every info pointer as they were; the walk runs from the node found in the shortened list, or from its second node |
| `BenchList.SortByContent` | software/app/CoreMark/src/core_list_join.c:172-173 | the list is sorted stably by the seven-bit keys its data items then hold, upper bytes unchanged; each uncached word has got its key in its turn, its own low bits or the result of an inner call of its own |
| `BenchList.AskedAre` | software/app/CoreMark/src/core_list_join.c:63-95 | the keys computed are those of all words that were uncached, and of no others |
| `BenchList.OrderReturnsIff` | software/app/CoreMark/src/core_list_join.c:187-188 | the last sort ends in the entry order if and only if the indices ascend and nodes with tied indices stand in their entry order when it starts |
| `BenchList.BenchList` | software/app/CoreMark/src/core_list_join.c:125-199 | for every finder index, find count and inner result: same nodes and info pointers, sorted stably by index, each data word rebuilt from its upper byte; the entry state, order and contents, is back if and only if ties are kept as above and the two bytes of each data word agreed; without a content sort that is a condition on the entry state alone; the result is the CRC walk over the restored list on top of the walk over the prepared one on top of the find score |
| `BenchList.StrictReturns` | software/app/CoreMark/src/core_list_join.c:125-131 | strictly ascending indices are enough for every run |
| `BenchList.MissesTurnOver` | software/app/CoreMark/src/core_list_join.c:144-151 | finds that all miss turn the list over once each and do nothing else |
| `BenchList.MissingRunReturnsIff` | software/app/CoreMark/src/core_list_join.c:143-188 | if no find has a match and there is no content sort, the order comes back if and only if the indices ascend, weakly after an even number of finds and strictly after an odd number |
| `BenchList.SortedRunReturnsIff` | software/app/CoreMark/src/core_list_join.c:171-188 | with a content sort the order comes back if and only if the indices ascend and ties stand in the order of their seven-bit keys, equal keys as the finds leave them |
| `BenchList.KeyedRunReturnsIff` | software/app/CoreMark/src/core_list_join.c:63-95 | if no word on entry is an uncached one of operation 0 or 1, that condition too is one on the entry state alone, whatever the inner benchmarks return |
| `BenchList.TieComesBackSwapped` | software/app/CoreMark/src/core_list_join.c:125-199 | a list of three nodes with indices 1, 1, 2 and one find that misses: it comes back with the first two nodes exchanged |
| `ListIndex.MixedTie` | software/app/CoreMark/src/core_list_join.c:250-251 | two mixed indices 256 counter values apart are equal whenever the counter is even and its ninth bit clear |
| `ListIndex.ApartIff` | software/app/CoreMark/src/core_list_join.c:244-254 | the indices of the whole list are pairwise different if and only if its size is at most 322 and every mixed index lies above the ones numbered in order |
| `ListIndex.ShippedApart` | software/app/CoreMark/src/core_list_join.c:244-254 | with the seeds 0 and 0x3415 of the performance and the validation run there is no tie for any size up to 322 |
| `ListIndex.ProfileApartIff` | software/app/CoreMark/src/core_list_join.c:244-254 | with the seed 8 of the profile run and size up to 322 there is none if and only if a fifth of the size leaves less than 8 modulo 16 |
| `ListIndex.SevenTies` | software/app/CoreMark/src/core_list_join.c:250-251 | with seed 7 and size 10 to 39 the seventh item gets the index 0 of the list head |
| `ListInit.InsertNew` | software/app/CoreMark/src/core_list_join.c:282-301 | a new node with the given data goes in behind the insert point, or nothing changes because the room is used up |
| `ListInit.Build` | software/app/CoreMark/src/core_list_join.c:225-242 | the linked list of head, tail and as many items as there is room for, in reverse order of insertion, with their data words |
| `ListInit.DataBits` | software/app/CoreMark/src/core_list_join.c:238-240 | both bytes of item i, bit by bit: three bits of i, four of i and the seed combined, and a clear bit 7 |
| `ListInit.NumberItems` | software/app/CoreMark/src/core_list_join.c:244-254 | every node has the index of its position, head and tail keep theirs |
| `ListInit.Init` | software/app/CoreMark/src/core_list_join.c:213-266 | the finished list: those nodes, data words and indices, sorted stably by index, strictly ascending if and only if no two indices tie, both bytes of each data word equal |
| `CoreMain.Iterate` | software/app/CoreMark/src/core_main.c:38-56 | from a list with strictly ascending indices and agreeing bytes: two calls per iteration, with finder index 1 and -1 in turn, each with the result that `core_bench_list` has on that same list; order, contents and info pointers are left as they were; `crc` has gone through all keys computed and all results in order, and `crclist` through those of the first two calls |
| `CoreMain.RunsCrc` | software/app/CoreMark/src/core_main.c:48-53 | the record after any number of calls: its CRC is that of all values in order, from zero |
| `CoreMain.CachedRuns` | software/app/CoreMark/src/core_main.c:48-53 | if every word of the list is cached, these values are the results of the calls alone |
| `CoreMain.RunList` | software/app/CoreMark/src/core_main.c:186-190 | a list that `core_list_init` builds without ties is, after any number of iterations with any third seed, the list that was built, and the answers are those of `iterate` on it |
| `BlockedMultiply.MmNaive` | test/stimulus/riscv-tests/benchmarks/mm/mm.c:11-31 | adds the product to the window of C and changes nothing else, with four interleaved accumulators |
| `BlockedMultiply.KLoop` | test/stimulus/riscv-tests/benchmarks/mm/rb.h:3-210 | the register block of four rows by five columns adds its product, six terms per turn and a remainder loop |
| `BlockedMultiply.MmRb` | test/stimulus/riscv-tests/benchmarks/mm/mm.c:33-44 | register blocks and the naive strips at the right and the bottom add the whole product |
| `BlockedMultiply.Repack` | test/stimulus/riscv-tests/benchmarks/mm/mm.c:46-72 | copies a window eight elements at a time and changes nothing else |
| `BlockedMultiply.Pack` | test/stimulus/riscv-tests/benchmarks/mm/mm.c:84-94 | block (i, j) of the packed copy is block (i, j) of the window |
| `BlockedMultiply.BlockProduct` | test/stimulus/riscv-tests/benchmarks/mm/mm.c:100-113 | one packed block of C gains the product over all terms, whole blocks of terms and the rest |
| `BlockedMultiply.MainLoops` | test/stimulus/riscv-tests/benchmarks/mm/mm.c:96-125 | every packed block of C is finished and the strip to its right gains its product |
| `BlockedMultiply.Unpack` | test/stimulus/riscv-tests/benchmarks/mm/mm.c:140-142 | the packed blocks replace exactly the packed part of the window |
| `BlockedMultiply.MmCb` | test/stimulus/riscv-tests/benchmarks/mm/mm.c:74-143 | the cache-blocked path through packed copies adds the whole product and changes nothing outside the window |
| `BlockedMultiply.Mm` | test/stimulus/riscv-tests/benchmarks/mm/mm.c:145-152 | on either path, for all sizes, strides and offsets, the window of C gains A*B and nothing else changes; in particular a unit matrix on either side adds the other operand, and a zero operand leaves C alone |
| `BlockedMultiply.DotAdditive` | test/stimulus/riscv-tests/benchmarks/mm/mm.c:21-27 | the product is additive in the row and in the column |
| `BlockedMultiply.DotScaled` | test/stimulus/riscv-tests/benchmarks/mm/mm.c:21-27 | a factor of the row or of the column is one of the product |
| `BlockedMultiply.DotUnit` | test/stimulus/riscv-tests/benchmarks/mm/mm.c:21-27 | against a unit column a row gives its element there, and a unit row against a column that of the column |
| `BlockedMultiply.DotSplit` | test/stimulus/riscv-tests/benchmarks/mm/mm.c:117-123 | a product over p+q terms is the product over the first p plus the product over the next q |
| `BlockedMultiply.AddColumns` | test/stimulus/riscv-tests/benchmarks/mm/mm.c:39-41 | products over neighbouring columns add up to the product over both |
| `BlockedMultiply.AddTerms` | test/stimulus/riscv-tests/benchmarks/mm/mm.c:100-113 | products over consecutive terms add up to the product over all of them |
| `BlockedMultiply.PartsMakeWhole` | test/stimulus/riscv-tests/benchmarks/mm/mm.c:96-142 | packed part, right strip and bottom strip together are exactly the whole window |
| `BlockedMultiply.IndexInjective` | test/stimulus/riscv-tests/benchmarks/mm/mm.c:103-105 | different blocks have different places in the packed copy |
| `QuickSort.InsertionSort` | test/stimulus/riscv-tests/benchmarks/qsort/qsort_main.c:42-58 | sorts its segment, permutes it and touches nothing else |
| `QuickSort.MedianOfThree` | test/stimulus/riscv-tests/benchmarks/qsort/qsort_main.c:91-94 | puts the first, middle and last element in order into arr[l-1], arr[l] and arr[ir-1]: the median is the pivot and the ends are sentinels for the unguarded scans |
| `QuickSort.ScanUp` | test/stimulus/riscv-tests/benchmarks/qsort/qsort_main.c:104 | the unguarded upward scan stops inside the segment |
| `QuickSort.ScanDown` | test/stimulus/riscv-tests/benchmarks/qsort/qsort_main.c:105 | the unguarded downward scan stops inside the segment |
| `QuickSort.Partition` | test/stimulus/riscv-tests/benchmarks/qsort/qsort_main.c:91-112 | nothing left of the higher part exceeds the pivot and nothing right of the lower part is below it, and only the segment is permuted |
| `QuickSort.SplitTop` | test/stimulus/riscv-tests/benchmarks/qsort/qsort_main.c:118-129 | splitting the current segment keeps every pair of elements that are in different segments ordered |
| `QuickSort.SortTop` | test/stimulus/riscv-tests/benchmarks/qsort/qsort_main.c:79-85 | sorting and dropping the current segment keeps that order; with no segment left the whole array is sorted |
| `QuickSort.HalvingPush` | test/stimulus/riscv-tests/benchmarks/qsort/qsort_main.c:115-129 | pushing the larger part keeps the segment at depth d no larger than n/2^d |
| `QuickSort.TopDepth` | test/stimulus/riscv-tests/benchmarks/qsort/qsort_main.c:23-26 | for n < 11*2^24 a segment is only split at depth less than 24, so the stack index stays within 48 |
| `QuickSort.PushPending` | test/stimulus/riscv-tests/benchmarks/qsort/qsort_main.c:110-129 | each partition decreases the sum of the sizes of all pending segments, which bounds the outer loop |
| `QuickSort.Sort` | test/stimulus/riscv-tests/benchmarks/qsort/qsort_main.c:67-132 | every array of fewer than 11*2^24 elements ends sorted and a permutation of itself, within the 50-word stack |
| `RadixSort.Count` | test/stimulus/riscv-tests/benchmarks/rsort/rsort.c:43-58 | after the 4-fold unrolled loop each bucket holds the number of elements with its digit |
| `RadixSort.PrefixSums` | test/stimulus/riscv-tests/benchmarks/rsort/rsort.c:60-66 | the bucket of a digit becomes the end of its slots |
| `RadixSort.PlaceInBounds` | test/stimulus/riscv-tests/benchmarks/rsort/rsort.c:79-89 | the slot for the next element of a digit lies in the scratch buffer |
| `RadixSort.PlaceOne` | test/stimulus/riscv-tests/benchmarks/rsort/rsort.c:88-89 | storing one element from the right in its slot keeps the elements already placed |
| `RadixSort.EverySlotOnce` | test/stimulus/riscv-tests/benchmarks/rsort/rsort.c:69-89 | different elements have different slots, and together they have all of them |
| `RadixSort.Store` | test/stimulus/riscv-tests/benchmarks/rsort/rsort.c:83-89 | the store goes to a slot in bounds that no store of this pass has gone to before, and changes nothing else |
| `RadixSort.AllPlaced` | test/stimulus/riscv-tests/benchmarks/rsort/rsort.c:69-89 | with every element placed the scratch buffer is the input grouped by digit, in input order within a digit |
| `RadixSort.Scatter` | test/stimulus/riscv-tests/benchmarks/rsort/rsort.c:69-89 | the backward scatter leaves the stable grouping by digit, and the slots it has written are all slots, each once |
| `RadixSort.PassPermutes` | test/stimulus/riscv-tests/benchmarks/rsort/rsort.c:41-96 | one pass permutes the elements |
| `RadixSort.PassSorts` | test/stimulus/riscv-tests/benchmarks/rsort/rsort.c:41-96 | a pass over a buffer sorted by its low bits leaves one sorted by eight more bits |
| `RadixSort.PassStable` | test/stimulus/riscv-tests/benchmarks/rsort/rsort.c:41-96 | a pass takes a stable order by the low bits to a stable order by eight more: for each value of those bits the elements that have it keep their order |
| `RadixSort.Sort` | test/stimulus/riscv-tests/benchmarks/rsort/rsort.c:32-99 | ends with the sorted permutation in `arrIn`; the copy after the loop is unreachable |
| `Towers.List.Push` | test/stimulus/riscv-tests/benchmarks/towers/towers_main.c:53-71 | the first free node becomes the head of the peg with the given disc |
| `Towers.List.Pop` | test/stimulus/riscv-tests/benchmarks/towers/towers_main.c:73-93 | the head node of the peg becomes the first free node and its disc is returned |
| `Towers.Apart` | test/stimulus/riscv-tests/benchmarks/towers/towers_main.c:39-40 | when the lists share out the pool, the head of one is on no other list and only once on its own |
| `Towers.Game.MoveDisc` | test/stimulus/riscv-tests/benchmarks/towers/towers_main.c:147-151 | the node travels with its disc, and the pegs afterwards are the logged move applied to the pegs before |
| `Towers.Game.SolveH` | test/stimulus/riscv-tests/benchmarks/towers/towers_main.c:140-157 | from any position, the pegs go through the positions of the recursive solution one after the other, as read off the lists after every move; the free list is unchanged and the lists still share out the pool |
| `Towers.Game.Init` | test/stimulus/riscv-tests/benchmarks/towers/towers_main.c:113-127 | stacks discs 1 to n on the first peg from free nodes |
| `Towers.Game.Clear` | test/stimulus/riscv-tests/benchmarks/towers/towers_main.c:129-138 | from any position, returns every node to the free list and sets the puzzle up again |
| `Towers.Game.Solve` | test/stimulus/riscv-tests/benchmarks/towers/towers_main.c:160-163 | from the tower of `towers_init`: 2^n-1 moves carry it to the third peg, every move is legal and every position on the way in order |
| `Towers.Game.Verify` | test/stimulus/riscv-tests/benchmarks/towers/towers_main.c:165-194 | 0 if and only if the tower stands on the third peg after 2^n-1 counted moves; codes 2 to 6 name the first failing condition |
| `Towers.Benchmark` | test/stimulus/riscv-tests/benchmarks/towers/towers_main.c:199-233 | for every n >= 1 with a pool of n nodes, with or without the warm-up run, the result is 0; the timed run makes the 2^n-1 moves of the recursive solution, each legal on the pegs as they stand, and no peg is ever out of order between two moves |
| `Hanoi.SolutionTransfers` | test/stimulus/riscv-tests/benchmarks/towers/towers_main.c:140-157 | the solution takes the top n discs to the target in their order, whatever they are |
| `Hanoi.SolutionLength` | test/stimulus/riscv-tests/benchmarks/towers/towers_main.c:189 | the solution has 2^n-1 moves |
| `Hanoi.SolutionIsLegal` | test/stimulus/riscv-tests/benchmarks/towers/towers_main.c:6-14 | no move of the solution takes from an empty peg or lays a disc on a smaller one |
| `Hanoi.LegalKeepsOrder` | test/stimulus/riscv-tests/benchmarks/towers/towers_main.c:6-14 | legal play never leaves a disc above a smaller one, at any point of it |
| `Hanoi.LegalRunIsSafe` | test/stimulus/riscv-tests/benchmarks/towers/towers_main.c:6-14 | the positions of a legal run, one by one: each is ordered, and each move legal in the one before it |
| `Hanoi.PuzzleSolved` | test/stimulus/riscv-tests/benchmarks/towers/towers_main.c:6-17 | the whole puzzle: 2^n-1 legal moves, all pegs ordered after every prefix, the tower at the end on the third peg |
| `Crc32.ReverseInvolution` | test/stimulus/riscv-tests/debug/programs/checksum.c:6-13 | `reverse` is its own inverse |
| `Crc32.ReverseShifts` | test/stimulus/riscv-tests/debug/programs/checksum.c:6-13 | `reverse` turns a left shift into a right shift and the top bit into the lowest |
| `Crc32.ShiftIsStep` | test/stimulus/riscv-tests/debug/programs/checksum.c:30-32 | one bit of the most-significant-first register is, reversed, one bit of the reflected register of RFC 1952 |
| `Crc32.FeedByte` | test/stimulus/riscv-tests/debug/programs/checksum.c:27-34 | feeding a reversed byte bit by bit is eight reflected steps of the register with the byte mixed in |
| `Crc32.TableStep` | test/stimulus/riscv-tests/debug/programs/checksum.c:26-36 | a look-up in the table of RFC 1952 is eight reflected steps |
| `Crc32.Crc32a` | test/stimulus/riscv-tests/debug/programs/checksum.c:20-38 | for every message the result is the CRC-32 of section 8 of RFC 1952 |
| `Crc32.UpdateInjective` | test/stimulus/riscv-tests/debug/programs/checksum.c:20-38 | whatever bytes follow, two different registers stay different |
| `Crc32.BurstDetected` | test/stimulus/riscv-tests/debug/programs/checksum.c:20-38 | two messages that differ only within four consecutive bytes never have the same checksum |
| `Crc32.Residue` | test/stimulus/riscv-tests/debug/programs/checksum.c:20-38 | a message with its checksum appended, lowest byte first, always has the checksum 0x2144DF1C |
| `Crc16.TurnIsStep` | software/app/CoreMark/src/core_util.c:146-162 | one turn of the loop of `crcu8` is, on the reversed register, one step of the division by 0x8005 with the top bit implied |
| `Crc16.Crcu16Divides` | software/app/CoreMark/src/core_util.c:142-170 | `crcu16` divides on through the sixteen bits of the word, lowest first |
| `Crc16.Crcu32Divides` | software/app/CoreMark/src/core_util.c:171-178 | `crcu32` through thirty-two |
| `Crc16.Crcu16IsRemainder` | software/app/CoreMark/src/core_util.c:142-170 | the register it leaves is a remainder in the division of register and word by x^16+x^15+x^2+1 |
| `Crc16.RemainderUnique` | software/app/CoreMark/src/core_util.c:142-170 | and there is only one |
| `Crc16.Crcu16Injective` | software/app/CoreMark/src/core_util.c:142-170 | over the same word different registers stay different |
| `Tokens.StateMeans` | software/app/CoreMark/src/core_state.c:184-277 | every state of the automaton is reached on exactly one language of byte strings |
| `Tokens.Classified` | software/app/CoreMark/src/core_state.c:184-277 | INT, FLOAT and SCIENTIFIC are the final states of exactly [+-]?d+, [+-]?d*.d* and [+-]?d*.d*[eE][+-]d+ |
| `Tokens.InvalidIffHopeless` | software/app/CoreMark/src/core_state.c:184-277 | INVALID is entered if and only if nothing that may follow makes an accepted token |
| `StateMachine.Switch` | software/app/CoreMark/src/core_state.c:194-272 | the next state and the counters of one byte |
| `StateMachine.Transition` | software/app/CoreMark/src/core_state.c:184-277 | consumes the token at the pointer and its comma, stops just after the first byte that no accepted token allows, moves on unless at the terminator, and tallies the state changes |
| `StateMachine.TallyTotal` | software/app/CoreMark/src/core_state.c:194-272 | the counters together grow by the number of state changes, and by one more for a bad first byte |
| `StateMachine.TallyCounts` | software/app/CoreMark/src/core_state.c:194-272 | over a token each counter gains the number of changes away from its own state; a change away from the scientific state counts as invalid, and so does a bad first byte |
| `StateMachine.FinalCounts` | software/app/CoreMark/src/core_state.c:59-61 | the final counters gain the number of tokens that end in their state |
| `StateMachine.TrackCounts` | software/app/CoreMark/src/core_state.c:59-61 | the transition counters gain these numbers over all tokens of the block |
| `StateMachine.TokenUnique` | software/app/CoreMark/src/core_state.c:184-277 | which bytes form the token at a position depends on the memory alone |
| `StateMachine.Scan` | software/app/CoreMark/src/core_state.c:58-65 | splits the block into tokens up to a terminator, counting each final state, and ends |
| `StateMachine.LexedUnique` | software/app/CoreMark/src/core_state.c:58-65 | the tokens of a block are determined by its contents |
| `StateMachine.Mask` | software/app/CoreMark/src/core_state.c:67-72 | exactly the visited bytes that are no commas get the low byte of the seed mixed in |
| `StateMachine.TerminatorSurvives` | software/app/CoreMark/src/core_state.c:67-72 | with a step of two or more, one of two neighbouring zeros survives the corruption |
| `StateMachine.RestoredIff` | software/app/CoreMark/src/core_state.c:82-86 | the undo pass restores the block if and only if the low bytes of the seeds agree and no visited byte became a comma, or nothing was corrupted |
| `StateMachine.BenchState` | software/app/CoreMark/src/core_state.c:43-99 | both scans and both passes stay in the block and end; the memory is the twice masked block and the result is the CRC over the counters of both scans |
| `StateMachine.CountsDivided` | software/app/CoreMark/src/core_state.c:94-97 | the result divides on through the thirty-two bits of every counter, final and transition counter of one state after the other |
| `Patterns.InitState` | software/app/CoreMark/src/core_state.c:116-166 | fills the block with as many patterns and commas as leave room for two zeros, zeros to the end, and nothing beyond |
| `Patterns.PatternMeans` | software/app/CoreMark/src/core_state.c:102-105 | the patterns are of the kinds their tables name, except that "-87e+832" is not scientific |
| `Patterns.PatternFromTable` | software/app/CoreMark/src/core_state.c:102-105 | which pattern each seed selects, spelled out for a whole period of 32 seeds |
| `Patterns.Characters` | software/app/CoreMark/src/core_state.c:168-277 | which characters the scanner takes for digits, signs, exponents, points and commas |
| `Patterns.ExponentNeedsPoint` | software/app/CoreMark/src/core_state.c:104 | "-87" is an integer token and the e after it makes it invalid |
| `Patterns.InitAndBench` | software/app/CoreMark/src/core_state.c:43-166 | initialising and then benchmarking: the block comes back if and only if the condition of RestoredIff holds for it |
| `Patterns.CommaStays` | software/app/CoreMark/src/core_state.c:82-86 | a failing input: with seeds 2 and 2 and step 2 the point of "35.54400" becomes a comma and is still one at the end, for every size from 16 |
| `Patterns.TerminatorLost` | software/app/CoreMark/src/core_state.c:82-86 | a failing input at every step, those of 0x22 and more included: with seeds 0x2C a terminator on which a pass lands becomes a comma and stays one |
| `Patterns.ShippedBlockReturns` | software/app/CoreMark/src/core_state.c:43-166 | with the seeds 0, 8 and 0x3415 of the three configured runs the block comes back, for every size and step |
| `Numerals.NumeralValue` | test/stimulus/riscv-tests/benchmarks/common/syscalls.c:163-169 | the emitted digits are digits of the base, without leading zeros, and have the value of the number |
| `Numerals.NumeralUnique` | test/stimulus/riscv-tests/benchmarks/common/syscalls.c:163-169 | there is no other such numeral |
| `Numerals.NumeralLength` | test/stimulus/riscv-tests/benchmarks/common/syscalls.c:160 | k digits are enough if and only if the number is below the k-th power of the base |
| `Printf.Split` | test/stimulus/riscv-tests/benchmarks/common/syscalls.c:160-169 | the digits go into the 64-word buffer, lowest first, and never overrun it |
| `Printf.PrintNum` | test/stimulus/riscv-tests/benchmarks/common/syscalls.c:157-176 | appends the numeral in any base from 2 to 16, padded on the left to the width, and nothing else |
| `Printf.DigitReadsBack` | test/stimulus/riscv-tests/benchmarks/common/syscalls.c:174-175 | every digit of every base up to 16 is printed as the character that reads back as it |
| `Printf.PrintSigned` | test/stimulus/riscv-tests/benchmarks/common/syscalls.c:297-304 | appends the sign and then the padded magnitude, for every long |
| `Printf.Atol` | test/stimulus/riscv-tests/benchmarks/common/syscalls.c:451-470 | skips spaces, takes one sign, and returns the decimal value, without overflow where the digits fit |
| `Printf.AtolReadsBackIff` | test/stimulus/riscv-tests/benchmarks/common/syscalls.c:297-332 | `atol` reads back a printed number if and only if it has no padding, or zeros, or spaces and no sign, or is 0 with a single minus sign of padding |
| `Printf.DashesMisread` | test/stimulus/riscv-tests/benchmarks/common/syscalls.c:226-229 | a failing input: 7 printed with the flag `-` and width 3 is read as 23 |
| `Printf.SpacesMisread` | test/stimulus/riscv-tests/benchmarks/common/syscalls.c:297-304 | a failing input: -7 printed with width 3 has its spaces after the sign and is not read back |
| `Printf.FitsIff` | test/stimulus/riscv-tests/benchmarks/common/syscalls.c:464-467 | `atol` reads a numeral without overflow if and only if its value is below 2^63 |
| `Printf.SprintfLd` | test/stimulus/riscv-tests/benchmarks/common/syscalls.c:360-378 | `sprintf(str, "%ld", x)` leaves the terminated text and returns its length |
| `Printf.ThereAndBack` | test/stimulus/riscv-tests/benchmarks/common/syscalls.c:360-470 | `atol(sprintf("%ld", x))` is x, in a buffer of 21 bytes, for every long but the least |

## Left out

- VvAdd, MatMul and Barrier are state machines over values, since their subject is interleaving; the threads' own loops are steps of these machines, not Dafny loops.
- Weak memory: orders of accesses that sequential consistency forbids are not considered.
- BlockedMultiply.Mm: sums exact reals, because rounding makes the two paths differ; nothing is said about floating point. The flat buffers with strides are two-dimensional arrays, so windows that overlap in one buffer are not covered beyond `c` being apart from `a` and `b`. The twenty accumulators of the register block are one small array.
- VvAdd.ExitCodeIsVerdict: compares elements as exact reals, because a NaN would differ from itself; element addition is an arbitrary function.
- MatMul.ResultIsProduct: takes lda up to 32, because larger matrices do not fit `BB[1024]`, and lda a multiple of 8, because the unrolled loops read past the row otherwise; element operations are arbitrary functions, summed in ascending order.
- QuickSort.Sort: is stated for fewer than 11*2^24 elements, because beyond that size the 50-word stack is not known to suffice.
- RadixSort.Sort: indexes with unbounded integers, so it also covers fewer than three elements, where the C code forms a pointer before the array.
- Towers.Benchmark: counts moves with unbounded integers; `1 << n` and the counter fit 32 bits for n up to 30.
- StateMachine.BenchState: keeps the 32-bit counters as unbounded naturals; they could only wrap for blocks of more than a gigabyte.
- Printf.SprintfLd: covers the conversion that "%ld" selects; the parsing of other format strings, strings and floating point in `vprintfmt` are not modelled.
- ListInit.InsertNew: allocates nodes and counts them, where the C code takes them from a block; how the size in bytes gives their number is not modelled.
- core_bench_matrix: an arbitrary result, as seen from the list benchmark.
- selection_sort in `qsort_main.c`: nothing calls it.
- The other kernels under `mt`: variants of the two modelled ones with fixed sizes.
- `median`, `multiply`, `spmv` and the sequential `vvadd`: single loops over arrays without shared state.
- Drivers, interrupt handlers, traps, and the Python test harness: their meaning lies in hardware or in processes.
