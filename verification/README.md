# Exact kernels and control planes of the compute fabric, modelled and proved

This project models the exact arithmetic kernels of the WebGPU blitter and the coordination code around
them, and proves what each is for.

- **Laurent product pipeline** (`BitonicNetwork`, `LaurentReference`, `LaurentKernel`, `LaurentPipeline`).
  The product, sort, reduce and compact passes run on arrays, the sort network in place under any order of
  the lanes between two barriers, the compaction in any order of arrival. The kernel refines the map-based
  CPU reference for all factors; the one exception, a product at the sort sentinel's key, is stated as an
  equivalence.
- **Request parser** (`RequestGrammar`, `RequestParser`, `RequestRoundTrip`, `StrictRequests`,
  `RequestText`, `RequestErrors`, `JsonCursor`). The cursor accepts exactly the texts of a declarative
  grammar; printing and parsing are inverse; a refusal names what is wrong.
- **Occupancy counters** (`RuntimeCounters`, `Occupancy`). Every interleaving of the atomic steps of any
  number of handler threads, with panics and a poisoned lock.
- **Tail gain** (`NumberTheory`, `Limbs`, `LcmWords`, `LcmTable`, `TailConstraints`, `TailJob`,
  `TailGain`, `TailGainSelection`). lcm(1..n) in six words, a bitmask compilation of progression-freeness,
  exact weights and the selection of the greatest.
- **Sharded merge** (`SuffixOrder`, `MergeSearch`, `SlicePlanner`, `MergeDispatch`). From the stable suffix
  sort through first-compatible scan, chunk loop, slice plan and aggregation to the global optimum.
- **Lease gate** (`LeaseGate`, `LeaseRuns`). The state object against its transition functions, and safety
  over whole runs of calls by any number of callers.
- **Planners** (`ShardAssign`, `SlotScheduler`) and **value codec** (`U192Tags`, `U192Codec`).

`Bits`, `BitMasks`, `MachineInts`, `Options` and `TextOrder` hold shared definitions. Imperative code of the
source is modelled by methods on arrays and classes, each proved against a function or predicate about which
the lemmas then speak.

## Where the code differs from its documentation

- `experiments/webgpu_blitter/src/bin/tailgain.rs:298-301` compares rows low word first. The model does the
  same; `TailGainSelection.ExactDomains` says on which domains that is always the gain, and
  `TailGain.HighFirstSelectsGain` that comparing high words first always is.
- `experiments/webgpu_blitter/src/merge.wgsl:42-44` reads the row of its lane number and ignores
  `slice_start`, so every chunk of a long slice shows its first rows again. `MergeSearch.SliceExactness` and
  `MergeSearch.ExactLengths` say exactly when a report is still right, and `MergeDispatch.ExactDispatch`
  when a whole dispatch is; with the row of the chunk it always would be (`MergeSearch.OwnRowsAreExact`).
- `experiments/webgpu_blitter/src/bin/blitter-daemon.rs:961` drops the GPU lock before the guard ends, so
  the status field `max_concurrent_compute` does not bound `active_compute`
  (`Occupancy.ActiveIsExact`, `Occupancy.AtMostOneActive`), and a running job can lose its start time
  (`Occupancy.StartKeptExactly`).
- `experiments/webgpu_blitter/src/bin/blitter-daemon.rs:174-176` loads the active and the queued count one
  after the other, so `idle` can be reported while a thread computes (`Occupancy.IdleWhileComputing`);
  `Occupancy.IdleReportIsTrue` says when it cannot.
- `experiments/webgpu_blitter/src/blitter.wgsl:79-81` calls every non-sentinel key a real product; a real
  product may also have the sentinel key (`LaurentPipeline.AgreesUnlessSentinel`).

## Model

| member | source | states |
|---|---|---|
| `BitonicNetwork.NetworkSorts` | experiments/webgpu_blitter/src/blitter.wgsl:55-75 | for every power of two of cells, the k/j double loop sorts by (qe, te) and keeps every (key, coefficient) pair |
| `BitonicNetwork.PhasesSort` | experiments/webgpu_blitter/src/blitter.wgsl:55-75 | each outer round leaves alternately ascending and descending blocks, so the phases up to k = 2^m sort either way |
| `BitonicNetwork.MergeSorts` | experiments/webgpu_blitter/src/blitter.wgsl:57-73 | the inner loop sorts any bitonic block |
| `BitonicNetwork.SplitsBitonic` | experiments/webgpu_blitter/src/blitter.wgsl:59-70 | one stage splits a bitonic block into two bitonic halves, all of one before all of the other |
| `BitonicNetwork.StagePermutes` | experiments/webgpu_blitter/src/blitter.wgsl:60-70 | a stage only moves cells |
| `BitonicNetwork.AnyLaneOrder` | experiments/webgpu_blitter/src/blitter.wgsl:58-71 | the pairs of a stage are disjoint: every order of the lanes between two barriers gives the same stage |
| `BitonicNetwork.RunStage` | experiments/webgpu_blitter/src/blitter.wgsl:58-71 | the lanes of one stage, run in any order on the three workgroup arrays in place, have the effect of the stage |
| `BitonicNetwork.SortPass` | experiments/webgpu_blitter/src/blitter.wgsl:55-75 | the whole pass on the arrays, under any lane schedule, sorts them and permutes their cells |
| `LaurentReference.ExactReference` | experiments/webgpu_blitter/src/bin/blitter-daemon.rs:413-447 | succeeds exactly when no exponent sum, coefficient product or reduced coefficient differs from what a kernel lane computes by wrapping; then it lists exactly the product in ascending key order without zeros; otherwise it reports the first of the three results that wraps, of the first pair that has one, or the reduced range |
| `LaurentReference.AddRow` | experiments/webgpu_blitter/src/bin/blitter-daemon.rs:416-430 | one row of the accumulation: every map entry grows by what the row contributes to its key; the first result that wraps, of the first pair that has one, is the error |
| `LaurentReference.AddTo` | experiments/webgpu_blitter/src/bin/blitter-daemon.rs:429 | the ordered-map update changes one key by the amount and keeps the keys ascending |
| `LaurentReference.Collect` | experiments/webgpu_blitter/src/bin/blitter-daemon.rs:432-446 | the readout of the map: refused exactly when some coefficient wraps in 32 bits, otherwise the exact product list |
| `LaurentReference.ListIsUnique` | experiments/webgpu_blitter/src/bin/blitter-daemon.rs:433-446 | the ascending zero-free list of a product is unique, so comparing two lists compares two products |
| `LaurentKernel.PaddedTerms` | experiments/webgpu_blitter/src/bin/blitter-daemon.rs:449-463 | refuses more than eight terms, otherwise pads to eight |
| `LaurentKernel.ProductPass` | experiments/webgpu_blitter/src/blitter.wgsl:22-34 | every lane writes its own wrapped pair product, or an empty record |
| `LaurentKernel.SortProducts` | experiments/webgpu_blitter/src/blitter.wgsl:49-82 | load with sentinels, sort, store: the records afterwards are a sorted permutation of the loaded cells, valid exactly off the sentinel key |
| `LaurentKernel.SumRun` | experiments/webgpu_blitter/src/blitter.wgsl:95-101 | the wrapping i32 loop over a run ends in the wrapped exact sum of the run |
| `LaurentKernel.ReducePass` | experiments/webgpu_blitter/src/blitter.wgsl:86-104 | only run starts write, each the folded record of its run |
| `LaurentKernel.CompactPass` | experiments/webgpu_blitter/src/blitter.wgsl:109-119 | with an atomic slot counter and lanes in any order of arrival: the kept records first, in that order, then empty ones |
| `LaurentKernel.Readback` | experiments/webgpu_blitter/src/bin/blitter-daemon.rs:638-648 | filters valid nonzero records and sorts them stably by key |
| `LaurentKernel.SortAscends` | experiments/webgpu_blitter/src/bin/blitter-daemon.rs:647 | sorting records with distinct keys gives strictly ascending keys |
| `LaurentPipeline.SlotsCarryProduct` | experiments/webgpu_blitter/src/blitter.wgsl:22-34 | the 64 product slots add up, at every key, to the coefficient of the exact product |
| `LaurentPipeline.SumAtPermuted` | experiments/webgpu_blitter/src/blitter.wgsl:49-82 | sorting does not change the sum at any key |
| `LaurentPipeline.ReducedLane` | experiments/webgpu_blitter/src/blitter.wgsl:89-103 | after the sort the first lane of a key holds the wrapped sum of all cells with that key, every other lane is empty |
| `LaurentPipeline.FilteredKept` | experiments/webgpu_blitter/src/blitter.wgsl:114-118 | the read back records are those of the kept lanes, once each, whatever the order of arrival |
| `LaurentPipeline.ReadbackLists` | experiments/webgpu_blitter/src/bin/blitter-daemon.rs:638-648 | the host list is ascending and holds exactly the nonzero wrapped sums at keys other than the sentinel |
| `LaurentPipeline.KernelListsProduct` | experiments/webgpu_blitter/src/blitter.wgsl:21-119 | wrap-around cancels: the kernel list is the exact product list except at the sentinel key |
| `LaurentPipeline.GpuProduct` | experiments/webgpu_blitter/src/bin/blitter-daemon.rs:465-649 | the whole kernel run: refuses only too many terms and otherwise lists the product off the sentinel key, for every lane schedule |
| `LaurentPipeline.ComputeExact` | experiments/webgpu_blitter/src/bin/blitter-daemon.rs:651-662 | for all factors: the reference faults pass through; otherwise too many terms is refused, a nonzero coefficient at the sentinel key is reported as a mismatch, and in every other case the exact product is returned |
| `LaurentPipeline.AgreesUnlessSentinel` | experiments/webgpu_blitter/src/bin/blitter-daemon.rs:654-660 | kernel list and reference list are equal if and only if the coefficient at key (2^32-1, 2^32-1) is zero |
| `LaurentPipeline.SentinelProductIsLost` | experiments/webgpu_blitter/src/blitter.wgsl:79-81 | a concrete product whose one term has the sentinel key and is dropped by the kernel |
| `JsonCursor.ParseComputeRequest` | experiments/webgpu_blitter/src/bin/blitter-daemon.rs:777-810 | accepts exactly the texts that the request grammar spells, whole, with their factors, and rejects every other text |
| `JsonCursor.Cursor.SkipWs` | experiments/webgpu_blitter/src/bin/blitter-daemon.rs:674-678 | moves to the first byte that is not white space |
| `JsonCursor.Cursor.Expect` | experiments/webgpu_blitter/src/bin/blitter-daemon.rs:685-693 | takes the mark if it comes next, otherwise reports it |
| `JsonCursor.Cursor.String` | experiments/webgpu_blitter/src/bin/blitter-daemon.rs:695-723 | reads a string with the listed escapes; control bytes, bad escapes and missing ends are errors |
| `JsonCursor.Cursor.Integer` | experiments/webgpu_blitter/src/bin/blitter-daemon.rs:725-740 | reads sign and digits to the last digit; no digit or a value outside i64 is an error |
| `JsonCursor.Cursor.TermArray` | experiments/webgpu_blitter/src/bin/blitter-daemon.rs:742-774 | reads at most eight in-range terms |
| `JsonCursor.ReadFields` | experiments/webgpu_blitter/src/bin/blitter-daemon.rs:785-804 | reads the field loop to the closing brace |
| `RequestParser.RequestRead` | experiments/webgpu_blitter/src/bin/blitter-daemon.rs:777-810 | every spelling of a request, with any white space and either field order, is read as its factors |
| `RequestParser.TermsRead` | experiments/webgpu_blitter/src/bin/blitter-daemon.rs:749-772 | a spelled term list within the limit is read term by term and the rest is left unread |
| `RequestParser.NumeralRead` | experiments/webgpu_blitter/src/bin/blitter-daemon.rs:725-740 | a numeral not followed by a digit is read whole, with its value |
| `RequestRoundTrip.AcceptedIsRequest` | experiments/webgpu_blitter/src/bin/blitter-daemon.rs:777-810 | whatever is accepted is a spelling of the answered factors, to the last byte, with both fields once |
| `RequestRoundTrip.ParserIsExact` | experiments/webgpu_blitter/src/bin/blitter-daemon.rs:777-810 | accepting with factors a and b is equivalent to being a request for a and b, for all byte strings |
| `RequestRoundTrip.SpacedRoundTrip` | experiments/webgpu_blitter/src/bin/blitter-daemon.rs:880-886 | printed terms, in either field order and with any white space between tokens, parse back to the same factors |
| `RequestRoundTrip.JsonRoundTrip` | experiments/webgpu_blitter/src/bin/blitter-daemon.rs:880-886 | the compact printed form parses back |
| `RequestText.RequestPrinted` | experiments/webgpu_blitter/src/bin/blitter-daemon.rs:880-886 | for all factors the compact printed form is, byte for byte, the text with its braces, quotes, letters, brackets, commas, signs and decimal digits written as string literals |
| `RequestText.TextIsRead` | experiments/webgpu_blitter/src/bin/blitter-daemon.rs:777-810 | that text parses back to the factors |
| `RequestErrors.TermIsRefused` | experiments/webgpu_blitter/src/bin/blitter-daemon.rs:742-774 | in either field and after any good terms: a term with an exponent outside u32 is refused for that, else one with a coefficient outside i32, else a ninth term for the limit |
| `RequestErrors.IntegerJudged` | experiments/webgpu_blitter/src/bin/blitter-daemon.rs:725-740 | signed digits are read whole, with their value, or refused for the range exactly if they leave i64 |
| `RequestErrors.NumberMissing` | experiments/webgpu_blitter/src/bin/blitter-daemon.rs:736-738 | a sign without digits, or neither, is no integer |
| `RequestErrors.DuplicateIsRefused` | experiments/webgpu_blitter/src/bin/blitter-daemon.rs:785-804 | the same field again is refused as that duplicate, whatever follows |
| `RequestErrors.UnknownIsRefused` | experiments/webgpu_blitter/src/bin/blitter-daemon.rs:785-804 | a field of any other one-letter name is refused as unsupported |
| `RequestErrors.MissingIsRefused` | experiments/webgpu_blitter/src/bin/blitter-daemon.rs:805-810 | a complete object with one field is refused for the other one, or for what follows the object |
| `RequestErrors.TrailingIsRefused` | experiments/webgpu_blitter/src/bin/blitter-daemon.rs:805-807 | a complete request with something after it is refused for that |
| `RequestErrors.EmptyIsRefused` | experiments/webgpu_blitter/src/bin/blitter-daemon.rs:777-784 | an empty object is refused as empty, whatever follows |
| `RequestRoundTrip.AcceptedReprints` | experiments/webgpu_blitter/src/bin/blitter-daemon.rs:777-810 | every accepted input has in-range factors within the limit, and printing and parsing them again gives them back; a rejected input is no request |
| `RequestRoundTrip.FormFeedIsSpace` | experiments/webgpu_blitter/src/bin/blitter-daemon.rs:674-678 | a form feed is accepted as white space, which section 2 of RFC 8259 does not allow |
| `RequestRoundTrip.LeadingZeros` | experiments/webgpu_blitter/src/bin/blitter-daemon.rs:725-740 | leading zeros are accepted and change nothing, which section 6 of RFC 8259 does not allow |
| `StrictRequests.StrictIsConforming` | experiments/webgpu_blitter/src/bin/blitter-daemon.rs:674-740 | a text spells tokens in the form of sections 2 and 6 of RFC 8259 exactly if it spells them as the parser reads them and has no form feed and no zero in front of more digits |
| `StrictRequests.StrictExactly` | experiments/webgpu_blitter/src/bin/blitter-daemon.rs:674-886 | how far the parser goes beyond RFC 8259: a text is a request of the strict grammar if and only if it is accepted and has no form feed and no numeral with a superfluous leading zero |
| `RequestGrammar.PrintedIsRequest` | experiments/webgpu_blitter/src/bin/blitter-daemon.rs:880-886 | the printed terms in a request object spell the request |
| `RequestGrammar.Decimal` | experiments/webgpu_blitter/src/bin/blitter-daemon.rs:883 | a printed integer is a numeral of its value |
| `RuntimeCounters.RuntimeState.BeginActive` | experiments/webgpu_blitter/src/bin/blitter-daemon.rs:140-146 | counts the activation, sets the start time and bumps the sequence |
| `RuntimeCounters.RuntimeState.FinishActive` | experiments/webgpu_blitter/src/bin/blitter-daemon.rs:148-161 | uncounts the activation, counts one outcome, clears the start time, stamps the end |
| `RuntimeCounters.ActiveGuard.Drop` | experiments/webgpu_blitter/src/bin/blitter-daemon.rs:236-240 | dropping the guard finishes the interval with the marked outcome |
| `RuntimeCounters.HandleAlone` | experiments/webgpu_blitter/src/bin/blitter-daemon.rs:896-994 | an undisturbed request adds one to the total and to exactly one outcome, bumps the sequence one, three or four times, and leaves queue and active counts as they were, also when the computation panics |
| `RuntimeCounters.IntervalBalances` | experiments/webgpu_blitter/src/bin/blitter-daemon.rs:222-240 | an active interval leaves the occupancy unchanged and adds one outcome |
| `Occupancy.CountersAreExact` | experiments/webgpu_blitter/src/bin/blitter-daemon.rs:122-171 | in every interleaving of the atomic steps of any number of handler threads: total = completed + failed + in progress (modulo 2^64), queued and active equal the threads in those phases |
| `Occupancy.OutcomesAreExact` | experiments/webgpu_blitter/src/bin/blitter-daemon.rs:148-166 | in every interleaving, modulo 2^64: completed plus the threads that owe a success is the number of steps at which a computation ends well; failed plus the threads that owe a failure is the number of steps at which a computation ends badly or a request is turned away |
| `Occupancy.AloneIsHandled` | experiments/webgpu_blitter/src/bin/blitter-daemon.rs:896-994 | a thread that nobody disturbs, with any fate that the lock allows, ends with exactly the counters that the request handled on its own promises, the lock free again |
| `Occupancy.NothingUnderflows` | experiments/webgpu_blitter/src/bin/blitter-daemon.rs:135-149 | no decrement of the queued or active counter ever meets zero |
| `Occupancy.OneHolder` | experiments/webgpu_blitter/src/bin/blitter-daemon.rs:941-961 | at most one thread holds the GPU lock, at most one is in compute_exact, and at most one is admitted but counted neither as queued nor as active; that one has the lock |
| `Occupancy.IdleReport` | experiments/webgpu_blitter/src/bin/blitter-daemon.rs:168-176 | the two loads of the reader, with any steps of other threads in between, read idle exactly when no thread is active at the first load and none is queued at the second |
| `Occupancy.IdleReportIsTrue` | experiments/webgpu_blitter/src/bin/blitter-daemon.rs:168-176 | for a reader that loads a zero active count: every continuation in which it reads idle has no active thread if and only if, at that load, the lock is poisoned or no thread is still on its way to the GPU |
| `Occupancy.ServeAllButOne` | experiments/webgpu_blitter/src/bin/blitter-daemon.rs:934-961 | from any sound state with no active thread in which some thread can still be admitted, a schedule empties the queue while one thread is in compute_exact |
| `Occupancy.IdleWhileComputing` | experiments/webgpu_blitter/src/bin/blitter-daemon.rs:174-176 | a schedule in which the reader sees idle while a thread is in compute_exact |
| `Occupancy.Quiescence` | experiments/webgpu_blitter/src/bin/blitter-daemon.rs:122-171 | when all threads are done the totals balance, completed and failed count how the requests ended, both occupancy counters are zero and the lock is free |
| `Occupancy.ActiveIsExact` | experiments/webgpu_blitter/src/bin/blitter-daemon.rs:955-961 | active_compute is the number of threads past the unlock that have not signed off, plus one exactly when the lock holder is in an active phase |
| `Occupancy.AtMostOneActive` | experiments/webgpu_blitter/src/bin/blitter-daemon.rs:955-961 | active_compute is at most one in every run of n handler threads if and only if n is at most one |
| `Occupancy.StartKeptExactly` | experiments/webgpu_blitter/src/bin/blitter-daemon.rs:140-161 | the start time that a job sets is shown for as long as it runs, in every continuation, if and only if no other thread past its unlock has yet to clear it |
| `Occupancy.CurrentCanBeLost` | experiments/webgpu_blitter/src/bin/blitter-daemon.rs:155-157 | such a late thread exists: with two threads a run in which the start time of a job is not kept |
| `Occupancy.ActiveIsUnbounded` | experiments/webgpu_blitter/src/bin/blitter-daemon.rs:955-961 | because the lock is dropped before the guard, active_compute can reach any number of threads |
| `Limbs.AddWord` | experiments/webgpu_blitter/src/merge.wgsl:32-38 | the two wrapping additions with joined carries are an exact full adder |
| `Limbs.PartialCarriesExclusive` | experiments/webgpu_blitter/verify_u192_carry.cpp:26-31 | the two partial carries are never both set |
| `Limbs.AddChainValue` | experiments/webgpu_blitter/src/merge.wgsl:55-71 | the carry chain is exact: words plus final carry are the sum |
| `Limbs.WgslAdd` | experiments/webgpu_blitter/verify_u192_carry.cpp:22-34 | six words: the sum modulo 2^192 |
| `Limbs.Pack64` | experiments/webgpu_blitter/verify_u192_carry.cpp:36-42 | three 64-bit limbs of the same value |
| `Limbs.Unpack64` | experiments/webgpu_blitter/verify_u192_carry.cpp:44-50 | six words of the same value |
| `Limbs.ReferenceAdd64` | experiments/webgpu_blitter/verify_u192_carry.cpp:52-65 | the 64-bit adder: the sum modulo 2^192 |
| `Limbs.AddersAgree` | experiments/webgpu_blitter/verify_u192_carry.cpp:22-65 | both adders give the same words on all inputs |
| `Limbs.MulWord` | experiments/webgpu_blitter/src/bin/tailgain.rs:69-76 | in place: multiplication modulo 2^192 |
| `Limbs.DivWord` | experiments/webgpu_blitter/src/bin/tailgain.rs:78-85 | in place: the integer quotient, exactly |
| `Limbs.LexGt` | experiments/webgpu_blitter/src/bin/merge.rs:329-336 | comparing from the high word down is numeric comparison |
| `Limbs.WordsToBigint` | experiments/webgpu_blitter/src/bin/tailgain.rs:326-332 | the integer value of the words |
| `Limbs.ReversedKeyOrder` | experiments/webgpu_blitter/merge_partition.py:109-126 | the reversed word tuple orders numerically |
| `Limbs.WordAt` | experiments/webgpu_blitter/u192_codec.py:156 | word k is the k-th base-2^32 digit |
| `Limbs.WordsBijection` | experiments/webgpu_blitter/u192_codec.py:142-156 | six words and the integers below 2^192 are in bijection |
| `LcmWords.IsPrimeTrial` | experiments/webgpu_blitter/src/bin/tailgain.rs:55-67 | trial division decides primality |
| `LcmWords.LargestPower` | experiments/webgpu_blitter/src/bin/tailgain.rs:46-49 | the loop ends in the largest power of p that is at most n |
| `LcmWords.LcmUpTo` | experiments/webgpu_blitter/src/bin/tailgain.rs:38-53 | the words denote lcm(1..n) modulo 2^192, hence lcm(1..n) whenever that is below 2^192 |
| `LcmWords.GcdBig` | experiments/webgpu_blitter/src/bin/tailgain.rs:334-342 | the Euclidean loop computes the greatest common divisor |
| `LcmWords.ReduceFraction` | experiments/webgpu_blitter/src/bin/tailgain.rs:307-312 | the printed fraction equals the total over L and is in lowest terms |
| `NumberTheory.TrialDivision` | experiments/webgpu_blitter/src/bin/tailgain.rs:59-66 | no divisor up to the square root means prime |
| `NumberTheory.ProductIsLcm` | experiments/webgpu_blitter/src/bin/tailgain.rs:42-51 | the product of the largest prime powers up to n is divisible by every m <= n and divides every common multiple |
| `NumberTheory.LcmUnique` | experiments/webgpu_blitter/src/bin/tailgain.rs:38-53 | the least common multiple is unique |
| `TailConstraints.MaskTest` | experiments/webgpu_blitter/src/tailgain.wgsl:38-44 | the early returns compute the three table tests |
| `TailConstraints.MaskTestExact` | experiments/webgpu_blitter/src/tailgain.wgsl:38-44 | a mask passes if and only if no progression of prefix and tail uses a tail element |
| `TailConstraints.MaskTestFree` | experiments/webgpu_blitter/src/tailgain.wgsl:38-44 | for a progression-free prefix, a mask passes if and only if prefix and tail together are progression-free |
| `TailJob.BuildBlocked` | experiments/webgpu_blitter/src/bin/tailgain.rs:181-194 | the blocked word has exactly the bits that complete a progression of two prefix elements |
| `TailJob.BuildPairs` | experiments/webgpu_blitter/src/bin/tailgain.rs:195-205 | the pair table holds exactly the reflection pairs, in increasing order |
| `TailJob.BuildTriples` | experiments/webgpu_blitter/src/bin/tailgain.rs:206-215 | the triple table holds exactly the inner progressions, (d-1)^2/4 of them, at most 132 |
| `TailJob.PairsFit` | experiments/webgpu_blitter/src/bin/tailgain.rs:232-238 | at most (d/2)(d - d/2) pairs, hence at most 144 of 256 slots |
| `TailJob.TripleTotal` | experiments/webgpu_blitter/src/bin/tailgain.rs:208-215 | the count of inner progressions |
| `TailGain.WeightWords` | experiments/webgpu_blitter/src/bin/tailgain.rs:87-91 | the weight of e is L / e |
| `TailGain.BuildWeights` | experiments/webgpu_blitter/src/bin/tailgain.rs:240-242 | one exact weight per domain element |
| `TailGain.WeightIsExact` | experiments/webgpu_blitter/src/bin/tailgain.rs:240-242 | in units of lcm(1..N2) the weight of a tail is exactly the sum of its reciprocals |
| `TailGain.Accumulate` | experiments/webgpu_blitter/src/tailgain.wgsl:45-72 | the six-word accumulation equals the weight of the tail: no carry leaves the sixth word |
| `TailGain.TailGainPass` | experiments/webgpu_blitter/src/tailgain.wgsl:34-81 | a row is valid exactly for an admissible tail and then holds its weight |
| `TailGain.RowsAreTotals` | experiments/webgpu_blitter/src/bin/tailgain.rs:243-289 | the valid rows are exactly the weights of the admissible tails |
| `TailGain.SelectLowFirst` | experiments/webgpu_blitter/src/bin/tailgain.rs:291-306 | a valid row that no valid row precedes, comparing low words first, as coded |
| `TailGain.RunJob` | experiments/webgpu_blitter/src/bin/tailgain.rs:174-321 | refuses more than 24 elements; otherwise the low-word-first greatest admissible total, as words and as a reduced fraction of lcm(1..N2) |
| `TailGainSelection.ExactDomains` | experiments/webgpu_blitter/src/bin/tailgain.rs:298-301 | for N2 up to 88: every low-word-first selection is the gain, for all prefixes or for all progression-free ones, if and only if N2 is at most 66 |
| `TailGainSelection.AgreementSelectsGain` | experiments/webgpu_blitter/src/bin/tailgain.rs:298-301 | where heavier admissible tails also have greater low words, the selection as coded is the gain |
| `TailGainSelection.PairMisses` | experiments/webgpu_blitter/src/bin/tailgain.rs:298-301 | where a prefix leaves two elements whose weights overflow the low word together, no selection as coded is the gain |
| `TailGainSelection.MissedGain` | experiments/webgpu_blitter/src/bin/tailgain.rs:298-301 | for every N2 from 67 to 88 a progression-free prefix and a selection of the code that is not the gain |
| `TailGainSelection.PrintedFraction` | experiments/webgpu_blitter/src/bin/tailgain.rs:307-320 | the printed fraction is for every prefix the greatest sum of reciprocals, in lowest terms, if and only if N2 is at most 66 |
| `TailGain.NumericMaximumIsGreatestSum` | experiments/webgpu_blitter/src/bin/tailgain.rs:307-320 | the numerically greatest row, reduced, is in lowest terms and equals the greatest sum of reciprocals of an admissible tail |
| `TailGain.GainIsGreatestSum` | experiments/webgpu_blitter/src/bin/tailgain.rs:307-312 | the gain over lcm(1..N2), reduced, is the greatest sum of reciprocals |
| `TailGain.GreatestSumIsGain` | experiments/webgpu_blitter/src/bin/tailgain.rs:307-312 | conversely, a total whose fraction is the greatest sum of reciprocals is the gain |
| `LcmTable.LcmIs` | experiments/webgpu_blitter/src/bin/tailgain.rs:38-53 | the values of lcm(1..n) for n from 65 to 88 |
| `TailGain.HighFirstSelectsGain` | experiments/webgpu_blitter/src/bin/merge.rs:329-336 | a total is the gain if and only if no total precedes it comparing high words first |
| `TailGain.TopWordDecides` | experiments/webgpu_blitter/src/bin/merge.rs:329-336 | the highest differing word decides the numeric order |
| `TailGain.LcmFits` | experiments/webgpu_blitter/src/tailgain.wgsl:71 | up to N2 = 88 the lcm is far below 2^192 |
| `SuffixOrder.StablePass` | experiments/webgpu_blitter/fabric_merge_dispatch.py:79-80 | a stable pass makes its key the most significant and keeps the order below it |
| `SuffixOrder.PrepareSuffix` | experiments/webgpu_blitter/fabric_merge_dispatch.py:78-81 | sorting by mask, then stably by words 0, 1 and 2, lists the suffixes by descending weight, equal weights by ascending mask |
| `SuffixOrder.SuffixWords` | experiments/webgpu_blitter/fabric_merge_dispatch.py:87-90 | the six written words have the weight of the suffix |
| `MergeSearch.CompatibleMeaning` | experiments/webgpu_blitter/src/merge.wgsl:49-53 | the three tests say that no suffix element is blocked and no prefix element is forbidden |
| `MergeSearch.FirstFitIsBest` | experiments/webgpu_blitter/src/merge.wgsl:48-53 | in a descending list the first compatible suffix is the heaviest compatible one |
| `MergeSearch.MergeLane` | experiments/webgpu_blitter/src/merge.wgsl:41-86 | one lane, in place: the total of the first compatible suffix, or a cleared flag over the old words; it reads the row of its own lane number |
| `MergeSearch.Dispatch` | experiments/webgpu_blitter/src/bin/merge.rs:279-288 | all lanes of a dispatch: every row of the chunk is written by its lane, the others stay |
| `MergeSearch.RunMerge` | experiments/webgpu_blitter/src/bin/merge.rs:256-310 | the chunk loop as coded reports the first greatest row of the first 2^20 rows: later chunks show the same rows again |
| `MergeSearch.SliceBestIsWindowOptimum` | experiments/webgpu_blitter/src/bin/merge.rs:256-310 | that report is the greatest compatible total over the first 2^20 prefixes and all suffixes, or nothing when there is none |
| `MergeSearch.SliceExactness` | experiments/webgpu_blitter/src/merge.wgsl:42-44 | the report is the optimum of the slice if and only if every later total is matched among the first 2^20 rows |
| `MergeSearch.OneChunkIsExact` | experiments/webgpu_blitter/src/bin/merge.rs:256-310 | a slice of at most 2^20 prefixes is reported exactly |
| `MergeSearch.ExactLengths` | experiments/webgpu_blitter/src/bin/merge.rs:259-262 | the slice lengths that are always reported exactly are precisely those up to 2^20 |
| `MergeSearch.OwnRowsAreExact` | experiments/webgpu_blitter/src/bin/merge.rs:262-310 | if the kernel read row slice_start + i, the chunk loop would report the optimum of a slice of any length |
| `MergeDispatch.U192Key` | experiments/webgpu_blitter/merge_partition.py:109-126 | refuses anything but six u32 words, for the length or the first bad word, otherwise the words from the high one down |
| `MergeDispatch.U192ToInt` | experiments/webgpu_blitter/merge_partition.py:129-135 | the integer value of well-formed words |
| `MergeDispatch.AggregateWorkerResults` | experiments/webgpu_blitter/merge_partition.py:138-149 | the first numerically greatest result and its source; the first malformed result is the error |
| `MergeDispatch.DispatchMerge` | experiments/webgpu_blitter/fabric_merge_dispatch.py:118-160 | refuses a plan that is no exact cover, for its first flaw; otherwise runs the slices in order, skips failed workers and aggregates their reports |
| `MergeDispatch.ExactDispatch` | experiments/webgpu_blitter/fabric_merge_dispatch.py:118-160 | a plan finds the greatest compatible total for all prefixes and suffixes if and only if no worker fails and every slice has at most 2^20 prefixes |
| `MergeDispatch.AggregateIsATotal` | experiments/webgpu_blitter/fabric_merge_dispatch.py:151-157 | whatever workers fail and however long the slices are, the aggregate is never more than what some compatible pair totals |
| `MergeDispatch.AggregateIsLeadingOptimum` | experiments/webgpu_blitter/fabric_merge_dispatch.py:118-160 | whatever workers fail and however long the slices are, the aggregate is the optimum over the leading 2^20 rows of the slices that report, or nothing when these have no compatible pair |
| `MergeDispatch.SourceIsFirst` | experiments/webgpu_blitter/fabric_merge_dispatch.py:118-160 | the source named is the first slice that reports and whose leading rows attain the aggregate |
| `MergeDispatch.MergeAll` | experiments/webgpu_blitter/fabric_merge_dispatch.py:60-160 | sort, plan, run and aggregate: the outcome is the greatest compatible total over the leading 2^20 rows of the planned slices, named by the first slice that attains it, and over all prefixes if no planned slice is longer |
| `MergeDispatch.AggregateIsGlobal` | experiments/webgpu_blitter/fabric_merge_dispatch.py:118-160 | over an exact cover by slices of at most one chunk, without failures, the aggregate is the greatest compatible total of all prefixes and suffixes |
| `SlicePlanner.AllocateSlices` | experiments/webgpu_blitter/merge_partition.py:11-81 | refuses exactly a negative total, the first invalid item or too little capacity, in this order; otherwise an ordered disjoint cover of [0, total) within every cap, as the shares say |
| `SlicePlanner.PlaceShares` | experiments/webgpu_blitter/merge_partition.py:46-79 | the allocation loop places exactly the shares, zero shares left out |
| `SlicePlanner.ValidatePartition` | experiments/webgpu_blitter/merge_partition.py:84-106 | passes exactly the ordered disjoint covers of [0, total), and otherwise names the first flaw |
| `SlicePlanner.CoversOnce` | experiments/webgpu_blitter/merge_partition.py:84-106 | a cover puts every position in exactly one slice |
| `SlicePlanner.SharesCover` | experiments/webgpu_blitter/merge_partition.py:51-79 | with enough capacity the shares keep every cap and add up to the total |
| `SlicePlanner.SharesFollowRule` | experiments/webgpu_blitter/merge_partition.py:56-64 | every share outright: what the later slices cannot take, if this slice cannot afford that within its cap and its weighted proportion of what is left, and otherwise the most that it can afford, so one more would exceed the cap or the proportion |
| `SlicePlanner.LastOverrideIsIdle` | experiments/webgpu_blitter/merge_partition.py:66-68 | on the last slice the override never changes the share |
| `SlicePlanner.AdvisoryUntilBound` | experiments/webgpu_blitter/merge_partition.py:56-64 | until the minimum first binds the running allocation is at most the weighted proportion of the total; the binding slice takes what the later ones cannot, and from the next on every cap is reached |
| `SlicePlanner.BindingShare` | experiments/webgpu_blitter/merge_partition.py:56-64 | the slice at which the minimum binds reaches its own cap if and only if what is left then is all the capacity from there on |
| `SlicePlanner.BindingBelowCap` | experiments/webgpu_blitter/merge_partition.py:56-64 | a concrete plan whose binding slice stays below its cap |
| `LeaseGate.LeaseState.Acquire` | experiments/webgpu_blitter/lease_gate.py:173-201 | validates its arguments, drops a dead idle lease, refuses while work is in flight or a lease is live, otherwise grants the next epoch; a bad token costs an epoch |
| `LeaseGate.LeaseState.ValidateIdentityLocked` | experiments/webgpu_blitter/lease_gate.py:203-219 | the identity checks in order; an expired idle lease is dropped |
| `LeaseGate.LeaseState.Renew` | experiments/webgpu_blitter/lease_gate.py:221-230 | a live holder gets a new deadline under the same epoch and token |
| `LeaseGate.LeaseState.Release` | experiments/webgpu_blitter/lease_gate.py:232-256 | revokes the lease; it is dropped at once when nothing is in flight |
| `LeaseGate.LeaseState.BeginCompute` | experiments/webgpu_blitter/lease_gate.py:258-266 | marks the identity in flight if its lease is live and nothing else is in flight |
| `LeaseGate.LeaseState.FinishCompute` | experiments/webgpu_blitter/lease_gate.py:268-287 | clears the mark and answers whether the result may be committed; a dead lease is dropped |
| `LeaseGate.LeaseState.StatusReport` | experiments/webgpu_blitter/lease_gate.py:289-315 | the report after dropping a dead idle lease |
| `LeaseRuns.StepKeeps` | experiments/webgpu_blitter/lease_gate.py:173-315 | every call keeps: a stored lease has the newest epoch, and work in flight carries its identity; the epoch grows by at most one, and only in acquire |
| `LeaseRuns.GrantGuard` | experiments/webgpu_blitter/lease_gate.py:173-201 | a lease is granted exactly with valid arguments and token, nothing in flight and no live lease; then it is stored and reported with the next epoch and the requested time |
| `LeaseRuns.OwnerGuard` | experiments/webgpu_blitter/lease_gate.py:203-266 | renew and begin succeed exactly for the owner of a live lease (begin with nothing in flight), release exactly for the owner, and says whether work is in flight |
| `LeaseRuns.RefusalIsTrue` | experiments/webgpu_blitter/lease_gate.py:173-287 | every refusal code says something true of the gate and the call, and a refused call changes nothing but that a dead idle lease may be dropped and a misbehaving token factory uses up an epoch |
| `LeaseRuns.DeadLeaseIsDropped` | experiments/webgpu_blitter/lease_gate.py:168-315 | a call that sees a dead lease while nothing is in flight leaves none behind |
| `LeaseRuns.RemainingRoundsUp` | experiments/webgpu_blitter/lease_gate.py:328 | the reported time left is rounded up to milliseconds, zero exactly from the deadline on |
| `LeaseRuns.StatusIsTruthful` | experiments/webgpu_blitter/lease_gate.py:289-315 | the status shows liveness, holder, time left, work in flight and the newest epoch as they are, and an expired lease only while work is in flight |
| `LeaseRuns.GrantedEpochsIncrease` | experiments/webgpu_blitter/lease_gate.py:189-201 | over every run, granted epochs strictly increase |
| `LeaseRuns.OlderEpochsAreRefused` | experiments/webgpu_blitter/lease_gate.py:203-287 | after a grant, every call with an older epoch is refused: no renew, release, begin or commit |
| `LeaseRuns.NothingGrantedInFlight` | experiments/webgpu_blitter/lease_gate.py:180-184 | between a begin and its finish nothing is granted, nothing else begins, and only the same identity finishes |
| `LeaseRuns.InFlightWasBegun` | experiments/webgpu_blitter/lease_gate.py:258-287 | work in flight was begun earlier and has been running since |
| `LeaseRuns.SuccessNeedsNewestGrant` | experiments/webgpu_blitter/lease_gate.py:203-287 | whatever is not refused presents exactly the identity of the newest grant |
| `LeaseRuns.NoResurrection` | experiments/webgpu_blitter/lease_gate.py:203-287 | under a clock that never falls back, whoever renews, begins or commits has had a live lease at every call since its grant, with no release in between |
| `LeaseRuns.AliveWithinTtl` | experiments/webgpu_blitter/lease_gate.py:221-256 | after the last entry answered with a lease for an identity, with no release since, the lease is alive at a call exactly within the milliseconds that this entry asked for |
| `LeaseRuns.AliveExactly` | experiments/webgpu_blitter/lease_gate.py:173-256 | from the entries and their answers alone: a lease is alive at a call if and only if the last entry answered with it asked for time that has not passed and it was not given back since |
| `LeaseRuns.AdmittedExactly` | experiments/webgpu_blitter/lease_gate.py:221-287 | from the same facts, both ways: a begin is admitted exactly with such a lease and nothing running, a renewal exactly with such a lease and a valid time, a result is committed exactly if it is ready, was begun and still has such a lease |
| `LeaseRuns.CommittedWork` | experiments/webgpu_blitter/lease_gate.py:268-287 | a committed result was granted, then begun, then alone in flight, its lease alive at every call in between |
| `LeaseRuns.OneGrantEach` | experiments/webgpu_blitter/lease_gate.py:189-200 | no identity is granted twice |
| `LeaseRuns.FinishTestsAreRedundant` | experiments/webgpu_blitter/lease_gate.py:275-283 | with the invariant, the identity tests of finish_compute always pass |
| `LeaseRuns.AtMostOneComputes` | experiments/webgpu_blitter/lease_gate.py:545-601 | in every schedule of handler threads that begin and then finish once, at most one is computing |
| `LeaseRuns.FinishNeverCorrupts` | experiments/webgpu_blitter/lease_gate.py:582-601 | the identity corruption error is unreachable, and a failed upstream never commits |
| `ShardAssign.WeightedAssignments` | scripts/cluster/rank2_run.py:200-214 | refuses exactly a nonpositive count or no positive capacity; otherwise as many known names as shards, each the first in text order of the least loaded workers, balanced after every shard, each worker within one shard of its proportional share and within one own shard of any other assignment of as many shards |
| `ShardAssign.Least` | scripts/cluster/rank2_run.py:210 | no eligible worker comes before the chosen one by load and name |
| `ShardAssign.StaysBalanced` | scripts/cluster/rank2_run.py:209-212 | giving the next shard to a least loaded worker keeps (n_w - 1)/c_w <= n_v/c_v for all workers |
| `ShardAssign.CountsAddUp` | scripts/cluster/rank2_run.py:206-213 | every shard is counted once |
| `ShardAssign.ProportionalBound` | scripts/cluster/rank2_run.py:209-212 | n_w <= n c_w / C + 1 |
| `ShardAssign.MakespanBound` | scripts/cluster/rank2_run.py:209-212 | against any assignment of as many shards, each worker finishes within one of its own shards of some worker there |
| `ShardAssign.VerifyCoverage` | scripts/cluster/rank2_run.py:461-489 | passes exactly when every shard has as many keys as it claims and no key occurs twice overall; otherwise names the first shard with wrong keys or with a key of an earlier one |
| `SlotScheduler.RankedSorts` | scripts/cluster/slot_scheduler.py:283-304 | the ranking holds exactly the eligible pools, as often as offered, in key order |
| `SlotScheduler.KeyOrder` | scripts/cluster/slot_scheduler.py:295-303 | the ranking key is a total order |
| `SlotScheduler.FirstIsBest` | scripts/cluster/slot_scheduler.py:283-314 | the first of the ranking is eligible and least among the eligible pools; it is empty when there are none |
| `SlotScheduler.ScoresAreDefined` | scripts/cluster/slot_scheduler.py:277-280 | the score exception never fires in the ranking |
| `SlotScheduler.OffersMeaning` | scripts/cluster/slot_scheduler.py:268-294 | eligibility on the fields of a pool: healthy, live, a free slot, every required tag and control, a profile, and an acceptable surface |
| `SlotScheduler.ScoreMeaning` | scripts/cluster/slot_scheduler.py:280 | the score adds up the weights of the tags that the pool has |
| `SlotScheduler.PreferredByKey` | scripts/cluster/slot_scheduler.py:295-303 | the key prefers the greater score, then the smaller accessibility rank, queue per slot, round trip time (unknown counts as 2^31 - 1), absolute skew, node and pool name |
| `TextOrder.TextLessMeaning` | scripts/cluster/slot_scheduler.py:301-302 | names are compared in dictionary order |
| `SlotScheduler.DestinationIsBest` | scripts/cluster/slot_scheduler.py:307-344 | for a placement, a migration and a move put off the target is an eligible pool to which no eligible pool is preferred, on the pools' own fields with the score first; wait and stay have no target |
| `SlotScheduler.PlacementGuard` | scripts/cluster/slot_scheduler.py:316-319 | new or queued work is placed exactly when some pool is eligible, and waits otherwise |
| `SlotScheduler.MigrationGuard` | scripts/cluster/slot_scheduler.py:328-344 | placed work moves exactly when a best pool replaces a failing one by another or gains at least the hysteresis; it waits for a boundary when it is running and not checkpointable, and otherwise stays |
| `SlotScheduler.ReasonIsTrue` | scripts/cluster/slot_scheduler.py:328-344 | the reason given for a decision about placed work is the true one, with the true gain |
| `SlotScheduler.RoundRaises` | scripts/cluster/slot_scheduler.py:333-344 | with fixed capabilities and a healthy current pool a move raises the score by the gain |
| `SlotScheduler.MigrationsAreBounded` | scripts/cluster/slot_scheduler.py:307-344 | over any run, however loads change, moves times gain is at most the spread of the preference weights |
| `SlotScheduler.NoRevisit` | scripts/cluster/slot_scheduler.py:307-344 | with a positive gain a pool once left is never visited again, even when the run begins on a pool that does not fit |
| `SlotScheduler.NeverReturnsExactly` | scripts/cluster/slot_scheduler.py:316-344 | work never comes back to a pool that it has left, over all fleets, places and runs of observations, if and only if it is held in place (queued, or running and not checkpointable) or its required gain is at least one; zero, which is admitted, is not enough |
| `U192Tags.FieldsByMasks` | experiments/webgpu_blitter/u192_codec.py:69-78 | the tag fields are what the masks cut out |
| `U192Tags.JoinAt` | experiments/webgpu_blitter/u192_codec.py:91-96 | or-ing aligned fields adds them |
| `U192Tags.TagRoundTrip` | experiments/webgpu_blitter/u192_codec.py:69-96 | every byte decodes to fields that encode to it, and every field combination survives |
| `U192Tags.AdmittedTags` | experiments/webgpu_blitter/u192_codec.py:99-107 | the admitted tags are exactly those of the four layouts |
| `U192Codec.LimbsRoundTrip` | experiments/webgpu_blitter/u192_codec.py:159-169 | under every limb and byte order, words and 24-byte strings are in bijection |
| `U192Codec.BytesByWeight` | experiments/webgpu_blitter/u192_codec.py:159-161 | byte i of a payload is floor(value / 256^p) mod 256, with p = i least significant first, p = 23 - i most significant first, and the stated positions within words in the two mixed layouts |
| `U192Codec.HexAt` | experiments/webgpu_blitter/u192_codec.py:201 | a byte is shown by the digits of its high and its low half |
| `U192Codec.MadeOutright` | experiments/webgpu_blitter/u192_codec.py:195-203 | a descriptor outright: the schema text, the tag number of the layout, and two hexadecimal digits for every byte of the value by its weight |
| `U192Codec.RejectionIsTrue` | experiments/webgpu_blitter/u192_codec.py:206-245 | every rejection says something true of the descriptor |
| `U192Codec.HexDecodes` | experiments/webgpu_blitter/u192_codec.py:195-203 | the hexadecimal text of bytes is canonical and decodes to them |
| `U192Codec.HexEncodes` | experiments/webgpu_blitter/u192_codec.py:234-238 | canonical hexadecimal text re-encodes to itself |
| `U192Codec.MadeIsNormalized` | experiments/webgpu_blitter/u192_codec.py:195-250 | what is made is normalized back to its words |
| `U192Codec.NeverNoncanonical` | experiments/webgpu_blitter/u192_codec.py:241-245 | the final re-encoding check never fires |
| `U192Codec.AcceptedIsMade` | experiments/webgpu_blitter/u192_codec.py:206-250 | a descriptor is accepted with some words if and only if it is made from them under some layout |
| `U192Codec.MadeOnce` | experiments/webgpu_blitter/u192_codec.py:195-203 | words and layout of a descriptor are unique |
| `U192Codec.IntegersRoundTrip` | experiments/webgpu_blitter/u192_codec.py:142-156 | integers below 2^192 and words are in bijection, and survive every layout |

## Left out

- LcmWords.LcmUpTo: requires n below 65535 squared, because from there on the u32 square in the trial division can overflow.
- LcmWords.IsPrimeTrial: the same bound, for the same overflow.
- TailGain.RunJob: checks the domain size before the tables are built, while the source builds them first; for more than 31 elements its shifts would overflow before the check. The prefix lies within 1..64. For N2 below 65 the source binds a weights buffer of size zero, which the graphics library refuses; that refusal is not modelled.
- TailGain.AllRows: domains of 22 to 24 elements need more than 65535 workgroups in one dimension, which the default limits of the graphics library refuse; that refusal is not modelled.
- TailJob.BuildBlocked: the prefix elements lie below 2^31; from there on the doubling in the source can overflow.
- TailJob.BuildPairs: the prefix lies within 1..64, as the job format intends; for other elements the unsigned subtraction in the source can underflow.
- MergeSearch.RunMerge: the readback buffer stays mapped between chunks in the source; what the graphics library does about that is not modelled. The fraction that it prints repeats `LcmWords.LcmUpTo` and `LcmWords.ReduceFraction`.
- MergeDispatch.DispatchMerge: workers that fail are given by a list of flags, and worker names are taken to be distinct, as the hardware probe makes them.
- SuffixOrder.PrepareSuffix: the suffixes, their forbidden masks and their weights come from an enumeration that is not part of this model and are arbitrary inputs.
- MergeSearch.OneChunkIsExact: needs every pair total to stay below 2^192, since the kernel adds modulo 2^192.
- LaurentKernel.ProductPass: lanes that write disjoint slots are run in index order; only the sort stages and the compaction have lane orders as parameters. A stage interleaves whole lanes, which suffices since their footprints are disjoint.
- LeaseGate.LeaseState.Acquire: the clock reading and the token are parameters; the JSON arguments are integers, texts or anything else. Surrogates in a holder name are not modelled.
- LeaseRuns.FinishNeverCorrupts: upstream is "returns or fails at a later step"; a thread that is killed between begin and finish is not modelled.
- RuntimeCounters.HandleAlone: times are parameters, and response writing and tracing are left out.
- Occupancy.CountersAreExact: fewer than 2^64 threads; memory orderings are taken as sequentially consistent.
- JsonCursor.ParseComputeRequest: error messages keep their kind, not the byte offset or text; the body is any byte string, not only UTF-8.
- ShardAssign.WeightedAssignments: capacities and loads are exact reals instead of floats, and how a capacity is computed from probe data is left out; the balance needs distinct worker names.
- SlotScheduler.DestinationIsBest: queue pressure is an exact quotient; heartbeat parsing, which produces the pools, is left out.
- SlotScheduler.MigrationsAreBounded: moves off a degraded pool may lower the score and are not bounded.
- SlotScheduler.NeverReturnsExactly: a round sees the current pool healthy and live, and what a pool can do does not change during a run.
- U192Codec.AcceptedIsMade: a descriptor is a JSON object of texts, integers and other values; subclass tricks of the host language are left out.
- Lease records are replaced in place in the state object; the model keeps them as objects of the gate that no caller sees.
- HTTP, sockets, remote shells, subprocesses, GPU setup, adapter selection and hardware probes: plumbing over libraries.
- Hashes, signatures, TLS, receipts and provenance checks: foreign cryptography and field checks.
- The normalization certificates, claim and profile gates, lease protocol constants and spawn envelopes: finite tables that would add easy members.
- The archived peer-to-peer copy of the lease gate and the archived modules.
