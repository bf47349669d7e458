# Verified models of the collective test suite

The test programs measure collective operations on many ranks and check every element they deliver.
This project models the parts of them whose correctness is an argument rather than a formula, and
proves that argument in Dafny 4.11. `dafny verify dfyconfig.toml` checks all of it.

- **Exact test data** (`ShuffleRank`, `Hashing`, `GenSum`, `Floats`, `ReductionTree`, `ExactData`, `FloatSum`,
  `FloatPreMulSum`, `FloatProd`). Each rank generates its input alone, and every order and
  association of the reduction must give one predicted bit pattern. Floats are (sign, biased
  exponent, mantissa) for any format with e exponent and m mantissa bits; addition and
  multiplication are arbitrary functions that are exact whenever the exact result is representable
  (IEEE 754-2019, sections 3.4, 4.3 and 6.3); rounding to nearest even is proved to return the nearest
  float, and so to be one. The chain is: the shuffle is a permutation; the shares of a group add up to its target; an integer is
  encoded exactly; each partial result of each reduction tree is representable.
- **The checking kernels** (`VerifyKernel`): the block partition visits each element once and the
  counts of all threads add up to the number of wrong elements.
- **Load/store kernels** (`Interleaving`, `AllReduce`, `AlltoAllKernels`): each thread's accesses in
  loop order, every interleaving of all threads, and the fast kernel leaving what the simple one
  leaves. The reduction's addition is any function; nothing is assumed of it.
- **The two-epoch thread barrier** (`Episodes`) and the **network all-to-all** (`Gin`, and `GinMemory` for
  what its puts and stores leave in memory): state machines over their steps, under every schedule, over
  any number of calls or launches.
- **One-sided collectives** (`Rma`), **hypercube all-gather** (`HyperCube`), **irregular all-to-all**
  (`AlltoAllv`) and the **buffer layout** (`Layout`): separately computed offsets, sizes, signals
  and peers agree, and the data arrives.
- **The JSON writer** (`JsonText`, `JsonWriter`): the stack machine, the value tree it writes, and a
  reader of RFC 8259 texts (sections 2, 4, 5, 6 and 7) that recovers the tree.
- **Timers** (`Timers`): ranks of different colour record the same types, flush together, and the
  root counts every event once.

`Bits`, `Arith`, `Sums` and `Lists` hold words, nonlinear arithmetic, finite sums, permutations and lists
without repetition.

## Where the code and its comments differ

The model follows the code.

- The comment on `avoid_y` (verifiable/verifiable.cu:579) says that the returned y never equals the
  given one. It can: subtracting `y_max/2` instead of `y_max/2+1` leaves one draw that returns the
  given value. `GenSum.OtherTargetDiffers` states exactly when the two differ, and
  `GenSum.OtherTargetCanRepeat` is a concrete repeat. The sum theorem survives, because the exact
  cancellation is +0 on both sides.
- The comment at verifiable/verifiable.cu:573-575 promises that the submissions sum to y. When a
  group has more ranks than its y, `2*(y/rn)-1` wraps and line 618 divides by zero. What the hardware
  returns for r/0 is a parameter, `divZero`; `GenSum.ShareSum` states that the sum is y if and only if
  `GroupFits`: the group has at most y ranks (or is a single one), or the sum over the subsets, which may
  wrap, exceeds y and the quotient returned is not below the number of ranks (all ones is not).
  `GenSum.ShareSumCanMiss` is a small failing group, and `FloatSum.SixteenRanksMiss` a failing
  configuration for every seed and index. `FloatSum.OneSignExactly` carries this to the reductions: with one
  sign they end at the generated output if and only if the group fits.
- `sanitizeJson` (src/util.cu:120-125) is said to write into `lim` characters. The terminator may fall
  at index `lim`, one past the buffers of its callers (src/util.cu:218-219, 313-314).
  `JsonWriter.TerminatorAtLimit` states the condition on the input: it does if and only if some
  escaped character, with only printable ones before it, takes the last two places.
  `JsonWriter.TerminatorCanMiss` is such a name. The model keeps the source's buffers, and records in
  `spilled` and `overran` that the terminator missed one; the text written is then the one before it.
- `jsonDouble` (src/util.cu:337-345) prints an infinite value as `inf`, which is not JSON:
  `JsonWriter.DoubleIsJson`. A document is JSON if and only if no infinite value was written:
  `JsonWriter.AnyRunIsWellFormed`.
- The comment on `pick_color` (src/comm_ops.cu:710) says that with a step of 5 the first 5 ranks get colour 0.
  It is all but the last 5: `Timers.InitialIs`.
- src/util.cu:358 says that the stream is left with a trailing comma. It is not: separators are
  written before a key or value.
- The prefix of the vectorized all-reduce (src/all_reduce.cu:208-209) is how far the window offset lies
  past a vector boundary, not the way to the next one. Nothing is claimed about pointer alignment.

## Model

| member | source | states |
|---|---|---|
| `ShuffleRank.Shuffle` | verifiable/verifiable.cu:538-569 | the wrapping 32-bit code computes the mathematical shuffle, and leaves a generator state that does not depend on the rank |
| `ShuffleRank.AffineInjective` | verifiable/verifiable.cu:547-548 | x*a+b is one-to-one modulo 2^k for odd a |
| `ShuffleRank.TriangleInjective` | verifiable/verifiable.cu:549 | (x*x+x)/2 is one-to-one modulo 2^k |
| `ShuffleRank.ShuffledInRange` | verifiable/verifiable.cu:553-568 | the shuffle maps [0, rank_n) into itself, for every rank count and generator state |
| `ShuffleRank.ShuffledInjective` | verifiable/verifiable.cu:553-568 | it is one-to-one |
| `ExactData.ShuffleIsPermutation` | verifiable/verifiable.cu:533-538 | the shuffled ranks are a permutation |
| `ExactData.ShuffleIsOnto` | verifiable/verifiable.cu:533-538 | every place is taken by some rank |
| `Hashing.HashIsPermutation` | verifiable/verifiable.cu:81-90 | for every index the hash is a permutation of the seeds: it has an inverse on both sides |
| `Hashing.MixIsPermutation` | verifiable/verifiable.cu:71-78 | the generator step is a permutation of its states |
| `GenSum.FirstTarget` | verifiable/verifiable.cu:583-591 | without avoid_y the target lies between half of y_max, rounded up, and y_max |
| `GenSum.OtherTarget` | verifiable/verifiable.cu:583-591 | so does the target chosen with avoid_y, despite unsigned wrap-around, and is never the lowest |
| `GenSum.DrawnBy` | verifiable/verifiable.cu:583-587 | every value of a drawn range is drawn by some word |
| `GenSum.DrawMono` | verifiable/verifiable.cu:583-587 | a larger word never draws a smaller value |
| `GenSum.FirstTargetDrawn` | verifiable/verifiable.cu:583-591 | every target in the upper half of the range occurs |
| `GenSum.OtherTargetDrawn` | verifiable/verifiable.cu:583-591 | with avoid_y every target but the lowest occurs, the given one included |
| `GenSum.OtherTargetDiffers` | verifiable/verifiable.cu:579-590 | the target chosen with avoid_y differs from the given one if and only if the draw is not the last one or the given target lies in the lower range |
| `GenSum.OtherTargetCanRepeat` | verifiable/verifiable.cu:586-590 | a concrete generator state for which avoid_y returns the given target |
| `GenSum.GenSumXY` | verifiable/verifiable.cu:577-620 | the fixed-width code computes the target (the same for every rank) and the rank's share without overflow |
| `GenSum.ShareSumExact` | verifiable/verifiable.cu:596-619 | the shares of all ranks add up to exactly y when the group fits |
| `GenSum.ShareSum` | verifiable/verifiable.cu:596-619 | they do if and only if it fits, for every number of ranks below 2^31 |
| `GenSum.ShareSumCanMiss` | verifiable/verifiable.cu:603-619 | three ranks that are to share 2 submit 5 in all when r/0 is 0 |
| `GenSum.SharesSpread` | verifiable/verifiable.cu:596-619 | in a group that fits nothing wraps: part after part of s ranks submits 1, 2, 3, ..., up to the number of parts, and the last rank adds what is missing |
| `GenSum.ShareBound` | verifiable/verifiable.cu:618-619 | each share lies in [0, y] |
| `Floats.SourceFormatsValid` | verifiable/verifiable.cu:434-472 | all six float formats of the suite meet the assumptions of the theorems |
| `Floats.FormatParameters` | verifiable/verifiable.cu:434-472 | the width in bits and the exponent bias of each |
| `Floats.LargestFinite` | verifiable/verifiable.cu:434-472 | the largest finite value of a format, 65504 for half precision |
| `ExactData.WideFormats` | verifiable/verifiable.cu:630-633 | only the 64-bit format computes its mantissas in 64 bits |
| `ExactData.ExponentDrawn` | verifiable/verifiable.cu:636-638 | every permitted exponent is drawn by some word, with either sign |
| `ExactData.ExponentMono` | verifiable/verifiable.cu:638 | a larger high word never draws a smaller exponent |
| `Floats.MakeFloatFields` | verifiable/verifiable.cu:475-483 | packing by shifts and ors puts sign, exponent and mantissa into their own fields |
| `Floats.FloatOfValue` | verifiable/verifiable.cu:659-668 | normalising and packing an integer that fits the mantissa represents that integer exactly: finite, right sign, normal unless 0 |
| `Floats.MagInjective` | verifiable/verifiable.cu:475-483 | a finite magnitude has one encoding, so equal values are equal bits |
| `Floats.NearestIsExact` | verifiable/verifiable.cu:210-288 | what the reductions add and multiply with: rounded to nearest even, addition and multiplication return every representable exact result, as the theorems below assume |
| `Floats.NearestIsNearest` | verifiable/verifiable.cu:210-288 | a finite rounded result is at least as near to the exact one as every other float, and its mantissa is even if another one is as near |
| `Floats.NearestOverflow` | verifiable/verifiable.cu:210-288 | the rounded result is infinite if and only if the exact one lies at least half a unit above the largest float |
| `ReductionTree.ExactTree` | verifiable/verifiable.cu:625-669 | under any tree, sums of same-exponent integers whose positive and negative parts each fit the mantissa are exact at every node |
| `ReductionTree.ExactReduction` | verifiable/verifiable.cu:625-669 | any tree over all ranks, in any leaf order, evaluates to the encoding of the total |
| `ReductionTree.ChainReducesAll` | verifiable/verifiable.cu:625-629 | such trees exist for every number of ranks: one rank after the other, for one |
| `ExactData.PackMant` | verifiable/verifiable.cu:659-668 | the clz, shift and mask code builds that encoding |
| `FloatSum.GenInOutFloatSum` | verifiable/verifiable.cu:625-669 | the code generates the input and output the theorem is about, for either sign mode, whenever its shift by leading zeros is not negative |
| `FloatSum.DraftsOccur` | verifiable/verifiable.cu:634-646 | for every index each sign with each exponent, and each target of the first group, occurs for some seed |
| `FloatSum.FittingGroupsPack` | verifiable/verifiable.cu:659-668 | which it never is when the groups fit |
| `FloatSum.SixteenRanksMiss` | verifiable/verifiable.cu:646 | for every seed and index, 16 ranks of one sign miss their sum in the 4-bit significands of e4m3 if r/0 is below 16 |
| `FloatSum.OneSignExactly` | verifiable/verifiable.cu:643-646 | with one sign and inputs that pack, every tree of additions rounded to nearest ends at the generated output if and only if the group fits |
| `FloatSum.InputsEncode` | verifiable/verifiable.cu:642-657 | every rank's input is its signed share, at its shuffled place, on the common exponent |
| `FloatSum.SumIsExact` | verifiable/verifiable.cu:625-669 | every reduction tree over all ranks has only exactly representable partial sums and ends bit-identical to the generated output, +0 on full cancellation included |
| `FloatSum.GroupsFitWhenSmall` | verifiable/verifiable.cu:643-652 | its condition holds whenever the group has at most 2^m ranks, or r/0 is all ones |
| `FloatPreMulSum.GenInOutFloatPreMulSum` | verifiable/verifiable.cu:674-712 | the code generates the input and output of the next theorem, for a single rank too, whenever its shift is not negative |
| `FloatPreMulSum.DraftsOccur` | verifiable/verifiable.cu:682-692 | for every index each sign with each exponent, and each target of the first group, occurs for some seed |
| `FloatPreMulSum.SubmissionBound` | verifiable/verifiable.cu:699-709 | which it never is when the groups fit |
| `FloatPreMulSum.PreMulRounds` | verifiable/verifiable.cu:378-387 | multiplying an input by its rank's scalar, 1 or 2, is exact |
| `FloatPreMulSum.WeightedTotal` | verifiable/verifiable.cu:690-700 | the scaled submissions add up to y0 + 2*y1 (y0 alone for a single rank), which fits the mantissa |
| `FloatPreMulSum.PreMulSumIsExact` | verifiable/verifiable.cu:674-712 | every reduction tree over the scaled inputs is exact at every node and ends at the generated output |
| `FloatPreMulSum.GroupsFitWhenSmall` | verifiable/verifiable.cu:692-697 | when its condition holds |
| `FloatProd.GenInOutFloatProd` | verifiable/verifiable.cu:717-748 | the code generates the input and output of the next theorem, packed from their fields, whenever the exponent is an int |
| `FloatProd.DraftsOccur` | verifiable/verifiable.cu:727-740 | for every index each exponent total, and each significand but a power of two, occurs for some seed |
| `FloatProd.SubmissionFields` | verifiable/verifiable.cu:735-747 | the packed fields stay apart when the share does not exceed the bias |
| `FloatProd.ProductStep` | verifiable/verifiable.cu:720-726 | a product of two partial products is the partial product of both: exact, with neither overflow nor subnormal |
| `FloatProd.ProdIsExact` | verifiable/verifiable.cu:717-748 | every product tree is exact at every node and equals the output in sign, exponent and mantissa |
| `VerifyKernel.ExactlyOneVisitor` | verifiable/verifiable.cu:1192-1208 | every element is visited by exactly one thread of one block |
| `VerifyKernel.BlockLength` | verifiable/verifiable.cu:1192-1196 | the blocks are as equal as can be, the longer ones first |
| `VerifyKernel.WrongIs` | verifiable/verifiable.cu:1199-1202 | an element is wrong if and only if one value exceeds the other by more than the tolerance |
| `VerifyKernel.VerifyPrepared` | verifiable/verifiable.cu:1189-1211 | a thread counts exactly the wrong elements that it visits |
| `VerifyKernel.Prepare` | verifiable/verifiable.cu:1089-1106 | a thread writes exactly the elements it visits and leaves the others |
| `VerifyKernel.CountsAddUp` | verifiable/verifiable.cu:1189-1211 | over all threads the counts add up to the number of wrong elements |
| `VerifyKernel.NoneWrong` | verifiable/verifiable.cu:1199-1202 | with tolerance 0 that number is 0 if and only if results and expected data are equal |
| `Interleaving.OwnerDecides` | src/all_reduce.cu:155-165 | under any interleaving an element sees exactly its owner's accesses, in program order |
| `Interleaving.AllReduced` | src/all_reduce.cu:146-167 | any interleaving of threads that each handle their own elements leaves, in place or not, the ordered fold of the peers' elements in every receive window |
| `Interleaving.SomeInterleaving` | src/all_reduce.cu:146-167 | such threads can be interleaved |
| `AllReduce.GlobalTidUnique` | src/all_reduce.cu:205-206 | thread numbers over ranks, blocks and threads are in range and never shared |
| `AllReduce.GlobalTidOnto` | src/all_reduce.cu:205-206 | and every number in range is some thread's |
| `AllReduce.PlanIs` | src/all_reduce.cu:197-215 | the derived prefix, vector length, unrolling and vector count are the largest that fit their bounds |
| `AllReduce.OffsetOwned` | src/all_reduce.cu:216-250 | the warp, lane, block and unroll offset determines thread, block and step |
| `AllReduce.OwnedIsOffset` | src/all_reduce.cu:216-250 | every vector is some thread's offset |
| `AllReduce.LsaThread` | src/all_reduce.cu:152-165 | a thread of the simple kernel handles its residue class, each element once |
| `AllReduce.VectorizedThread` | src/all_reduce.cu:205-315 | a thread of the vectorized kernel handles exactly the elements it owns, prefix, whole blocks, partial block and remainder together, each once |
| `AllReduce.KernelsAgree` | src/all_reduce.cu:146-319 | under any two interleavings both kernels leave the same receive windows, the ordered fold on every peer, and touch nothing past count |
| `Episodes.StepInv` | src/common.cu:293-377 | every step of every thread keeps the protocol invariant |
| `Episodes.Rendezvous` | src/common.cu:324-377 | no thread leaves an episode before all have entered it |
| `Episodes.CountersSeparate` | src/common.cu:326-344 | the current epoch's counter counts exactly this episode's arrivals and the other epoch's is 0 |
| `Episodes.Agreement` | src/common.cu:331-376 | every thread's read after the unlock returns the same reduction, of exactly that episode's n values in their order of arrival |
| `Episodes.OrderIrrelevant` | src/common.cu:335-341 | for a commutative, associative operation that order does not matter |
| `Episodes.NoDeadlock` | src/common.cu:299-316 | until all threads are done, some thread can step without a spurious wake-up |
| `Episodes.RunsAreBounded` | src/common.cu:293-377 | the number of steps is bounded by the calls made and the spurious wake-ups |
| `Episodes.RunStarts` | src/common.cu:293-316 | the initial state alone is a run |
| `Episodes.RunCompletes` | src/common.cu:293-377 | from wherever a run has come to it can go on, without spurious wake-ups, until all calls are done |
| `Gin.PutLoop` | src/alltoall.cu:269-279 | a thread puts to exactly the remote peers in its residue class, each once |
| `Gin.PutOnce` | src/alltoall.cu:310-322 | over the put loops of all threads of a rank each remote peer is put to exactly once and no other, by the block of its receiving index |
| `Gin.SenderAndReceiverAgree` | src/alltoall.cu:269-283 | the block that puts to r raises the signal index that r's receiving block waits on |
| `Gin.AwaitedIsRemotePeers` | src/alltoall.cu:334-337 | the awaited count is the number of ranks that put to the receiver |
| `Gin.StepInv` | src/alltoall.cu:251-341 | every step of blocks and network keeps the invariant of barriers, signals and messages |
| `Gin.WaitDelivers` | src/alltoall.cu:281-283 | when waitSignal returns, every remote peer's chunk of this very launch is there |
| `Gin.SignalsLandOnce` | src/alltoall.cu:253-283 | signals reach only the receiving index, one launch's worth per launch, and none of a launch precedes the base read |
| `Gin.LaunchSettled` | src/alltoall.cu:334-340 | when a rank's blocks are done, every put of the launch has been delivered and every block of every rank has stored |
| `Gin.NeverStuck` | src/alltoall.cu:251-341 | some block can step or some message can be delivered |
| `Gin.RunStarts` | src/alltoall.cu:251-256 | the initial state alone is a run |
| `Gin.RunGoesOn` | src/alltoall.cu:251-341 | and every run goes on by it |
| `GinMemory.StoreLoop` | src/alltoall.cu:324-332 | a thread stores exactly the elements of its residue class, to every rank of the team, each from and to its place |
| `GinMemory.StoredOnce` | src/alltoall.cu:324-332 | over the store loops of all threads of all blocks of a rank each element for each team rank is stored exactly once, and nothing else |
| `GinMemory.StoresApart` | src/alltoall.cu:310-331 | the stores of a rank lie apart from every chunk that is put into the same window, and from every other rank's stores |
| `GinMemory.MakeInv` | src/alltoall.cu:251-341 | every step, store and delivery keeps: an element holds the source element of the last launch that wrote it, and each launch writes it once |
| `GinMemory.LaunchComplete` | src/alltoall.cu:251-341 | when a rank's blocks are done, its whole window holds this launch's data, every element of every rank written exactly once per launch, by a put or by a store |
| `GinMemory.WindowAfterLaunch` | src/alltoall.cu:271-330 | index i of rank r's window then holds element r*count + i mod count of rank i/count |
| `GinMemory.MemoryNeverStuck` | src/alltoall.cu:251-341 | stores never keep the protocol from moving on |
| `GinMemory.MemoryRunStarts` | src/alltoall.cu:251-256 | the initial state alone is a run |
| `GinMemory.MemoryRunGoesOn` | src/alltoall.cu:251-341 | and every run goes on by such a move |
| `Rma.AllGatherRmaPut` | src/all_gather.cu:60-97 | the loops issue exactly the puts and waits of the specification, none twice, for either aliasing |
| `Rma.AlltoAllRmaPut` | src/alltoall.cu:360-388 | likewise |
| `Rma.ScatterRmaPut` | src/scatter.cu:58-82 | likewise, with the in-place offsets |
| `Rma.GatherRmaPut` | src/gather.cu:60-84 | likewise |
| `Rma.BroadcastRmaPut` | src/broadcast.cu:55-70 | likewise |
| `Rma.SendRecvRmaPut` | src/sendrecv.cu:64-89 | likewise, chunk by chunk over contexts, empty chunks skipped on both sides |
| `Rma.ChunksTile` | src/sendrecv.cu:66-79 | the chunks add up to the message |
| `Rma.WaitsMatchPuts` | src/all_gather.cu:76-92 | a rank waits for a (source, signal, context) if and only if some rank's put raises it, in all six collectives |
| `Rma.SignalsBalance` | src/all_gather.cu:65-96 | the multiset of signals raised at a rank is the multiset it waits for |
| `Rma.DetectedInPlace` | src/scatter.cu:64 | from the addresses alone a rank finds out rightly whether the collective runs in place |
| `Rma.SelfPut` | src/all_gather.cu:82-86 | in an all-gather a rank, and in a scatter the root, puts to itself if and only if its own data is not where it belongs |
| `Rma.LayoutIsSafe` | src/scatter.cu:62-74 | destinations stay inside memory and are disjoint, and no put overwrites what another reads, in place or not |
| `Rma.CollectiveResult` | src/all_gather.cu:86-94 | delivered in any order, element by element, the puts leave each collective's result |
| `Rma.ResultByKind` | src/scatter.cu:58-75 | the same in plain addresses for each of the six collectives |
| `Rma.WaitsReturned` | src/all_gather.cu:72-96 | in all six collectives: once every signal a rank waits for has come, each after its put's data, all data due at that rank is there, whatever is still under way elsewhere |
| `Rma.RestUnchanged` | src/gather.cu:66-70 | and change nothing else |
| `Rma.SomeDelivery` | src/all_gather.cu:86-94 | all elements of all puts can be delivered |
| `Rma.SomeLayout` | src/common.cu:616-625 | every collective has a layout out of place, and those that know it one in place |
| `HyperCube.SendsItsGroup` | src/hypercube.cu:61 | the blocks sent are the aligned group of mask blocks that contains the rank |
| `HyperCube.ReceivesPeersGroup` | src/hypercube.cu:62-64 | the blocks received are the ones the peer sends |
| `HyperCube.PeersDiffer` | src/hypercube.cu:63-64 | two ranks meet in one round only |
| `HyperCube.ExchangeInRange` | src/hypercube.cu:59-65 | peer and blocks exist when the number of ranks is a power of two |
| `HyperCube.MaskLoop` | src/hypercube.cu:59-66 | the loop issues one exchange for each round of the protocol |
| `HyperCube.StepInv` | src/hypercube.cu:56-66 | every send, receive and round change keeps the invariant |
| `HyperCube.RoundHoldsGroup` | src/hypercube.cu:58-65 | before a round a rank holds exactly its aligned group and has touched nothing else |
| `HyperCube.PairsMeet` | src/hypercube.cu:60-65 | no rank passes a round its peer has not reached |
| `HyperCube.NeverStuck` | src/hypercube.cu:60-65 | every receive meets a send of its size, so the exchange goes on until all ranks are done |
| `HyperCube.GathersAll` | src/hypercube.cu:31-33 | every run ends after the same number of steps, with every block in order on every rank |
| `HyperCube.RunStarts` | src/hypercube.cu:31-58 | the initial state alone is a run |
| `HyperCube.RunCompletes` | src/hypercube.cu:31-66 | from wherever a run has come to it can go on to that end |
| `AlltoAllv.MatrixTotals` | src/alltoallv.cu:357-359 | with a matrix a rank sends its row and receives its column |
| `AlltoAllv.GeneratedVolumes` | src/alltoallv.cu:362-371 | fully spread, the rank d places further gets d shares of the total in whole 16-byte units, and the sender nothing; not spread, all get the same |
| `AlltoAllv.FartherGetsMore` | src/alltoallv.cu:364-369 | for every spread a rank that lies farther after the sender gets no less |
| `AlltoAllv.GeneratedTotal` | src/alltoallv.cu:398-400 | the total generated for is the largest multiple of n 16-byte units that the size holds |
| `AlltoAllv.RunColl` | src/alltoallv.cu:515-552 | the moving pointers give one send and one receive per nonzero segment, each at its place |
| `AlltoAllv.CallsPair` | src/alltoallv.cu:538-550 | a send has exactly one matching receive of the same size, and zero segments are skipped on both sides |
| `AlltoAllv.SourceOffset` | src/alltoallv.cu:448-454 | the receiver's prefix sum is the sender's offset |
| `AlltoAllv.InitData` | src/alltoallv.cu:406-458 | the expected buffer holds every source's segment in rank order and a zero tail |
| `AlltoAllv.TransferLands` | src/alltoallv.cu:542-549 | a matched pair of issued calls has equal sizes and lands its source's segment |
| `AlltoAllv.EndToEnd` | src/alltoallv.cu:436-552 | once every matched pair of issued calls has transferred, in any order, the receive buffer is exactly the expected one |
| `AlltoAllv.MatchedAre` | src/alltoallv.cu:538-550 | those pairs are one for each source that sends something, so such an order exists |
| `AlltoAllv.ExpectedIsUnique` | src/alltoallv.cu:436-457 | segments and tail determine that buffer |
| `AlltoAllv.ComputeMaxCounts` | src/alltoallv.cu:373-396 | both modes compute the maximum over all ranks, the generated one from rank 0 alone |
| `AlltoAllv.Balanced` | src/alltoallv.cu:362-380 | generated traffic: all send and receive totals are equal |
| `AlltoAllv.RealTotalIsTotal` | src/alltoallv.cu:364-368 | before alignment the shares add up to exactly the requested total |
| `AlltoAllv.TotalNearlySent` | src/alltoallv.cu:362-371 | after it a rank's traffic lies in (total-16n, total] for every spread in [0,1] |
| `AlltoAllv.BuffersSuffice` | src/alltoallv.cu:398-404 | buffers sized with 1-byte elements for the largest size hold every run, and generated traffic never needs more than that size |
| `Layout.ThreadArgs.SetupArgs` | src/common.cu:928-940 | a rank's share is the largest multiple of 16 bytes of which n fit into the elements of the size; what each collective sends, receives and offsets in place is one share or n, never more than the size |
| `Layout.ShareFits` | src/all_gather.cu:11 | a rank's share is a multiple of 16 bytes, and n of them fit |
| `Layout.TotalFits` | src/common.cu:558-559 | there is always at least one step to shift by |
| `Layout.ShiftsApart` | src/common.cu:557-560 | as many shifts as fit the largest size are used in turn, and different ones give disjoint ranges |
| `Layout.SlotsCoincide` | src/common.cu:616-625 | in place a rank's share lies at its slot of what all ranks receive, or send; otherwise all ranks use one offset |
| `Layout.RangesInside` | src/common.cu:558-624 | shifted, misaligned, in place or not, both ranges lie inside the padded allocation |
| `Layout.SlotsApart` | src/common.cu:616-625 | in-place slots are disjoint and start at multiples of 16 bytes |
| `Layout.ExpectedFits` | src/common.cu:1134-1147 | expected data fits the buffer that was sized with 1-byte elements |
| `AlltoAllKernels.SplitIs` | src/alltoall.cu:168-190 | when the kernel vectorizes, and that vector length, unrolling, vectors and whole steps are the largest that fit |
| `AlltoAllKernels.ScalarKernel` | src/alltoall.cu:135-145 | a thread copies its residue class for every peer, each element once |
| `AlltoAllKernels.UnrolledStep` | src/alltoall.cu:191-219 | one unrolled step covers the thread's vectors of the step for every peer |
| `AlltoAllKernels.VectorizedKernel` | src/alltoall.cu:164-241 | a thread copies exactly the elements it owns, through aligned, remaining and scalar parts or the fallback |
| `AlltoAllKernels.IssuedOnce` | src/alltoall.cu:164-241 | each copy is issued by exactly one thread, once, and no other copy is |
| `AlltoAllKernels.ExchangesAll` | src/alltoall.cu:135-241 | any interleaving of all threads of all ranks leaves the exchanged chunks, whichever kernel issued them |
| `AlltoAllKernels.KernelsAgree` | src/alltoall.cu:135-241 | under any two interleavings the vectorized kernel leaves the same windows as the scalar one, those of the all-to-all exchange |
| `AlltoAllKernels.SomeInterleaving` | src/alltoall.cu:135-241 | whatever the threads issue can be interleaved |
| `JsonText.ReadRendered` | src/util.cu:206-346 | a reader of JSON recovers every value from its text, whatever follows |
| `JsonText.RoundTrip` | src/util.cu:206-346 | a printed value is one JSON text that reads back as the value, if and only if no number in it is infinite |
| `JsonText.ReadEscaped` | src/util.cu:133-163 | an escaped string unescapes to itself |
| `JsonText.IntReads` | src/util.cu:325-334 | the text of an integer is its sign and digits that read back as the number |
| `JsonText.FixedReads` | src/util.cu:337-345 | the text of a finite double is its sign, digits that read back as the whole part, a point and six that read back as the rest |
| `JsonWriter.DoubleReads` | src/util.cu:337-345 | that is what is printed for a finite double; an infinite one keeps its sign |
| `JsonWriter.SanitizeJson` | src/util.cu:125-166 | in a buffer of lim characters: the escaped longest prefix that fits, terminated at an index of at most lim, which is lim if and only if the input fills the buffer; the result tells whether all was copied |
| `JsonWriter.WholeString` | src/util.cu:127-160 | a string is copied whole if and only if all of it is printable and all but its last character leave two places |
| `JsonWriter.TerminatorAtLimit` | src/util.cu:133-164 | the terminator falls past the buffer if and only if an escaped character of the input, after printable ones only, takes the last two places |
| `JsonWriter.TerminatorCanMiss` | src/util.cu:218-219 | 2046 letters and a quote do so for the source's 2048 characters |
| `JsonWriter.Writer.Key` | src/util.cu:206-222 | separator, sanitized key, colon, and the key state; the buffer overruns if and only if the key fills it |
| `JsonWriter.Writer.ValHelper` | src/util.cu:227-243 | the separator a value needs, and the state it leaves |
| `JsonWriter.Writer.StartObject` | src/util.cu:246-250 | opens an object in the document |
| `JsonWriter.Writer.FinishObject` | src/util.cu:253-262 | closes it into the container around it |
| `JsonWriter.Writer.StartList` | src/util.cu:265-269 | opens a list |
| `JsonWriter.Writer.FinishList` | src/util.cu:272-281 | closes it |
| `JsonWriter.Writer.Str` | src/util.cu:308-317 | writes the sanitized string, or null; the buffer overruns if and only if the string fills it |
| `JsonWriter.Writer.Bool` | src/util.cu:320-322 | writes the word as a string |
| `JsonWriter.Writer.Int` | src/util.cu:325-334 | writes the decimal number |
| `JsonWriter.DoubleIsJson` | src/util.cu:337-345 | what is printed for a double is JSON if and only if the double is not infinite |
| `JsonWriter.Writer.Double` | src/util.cu:337-345 | writes a finite or infinite value, or the string nan |
| `JsonWriter.Writer.OutputInit` | src/util.cu:395-425 | the head of a report meets all asserts and leaves one open object with the stated members |
| `JsonWriter.Writer.FinishCurrent` | src/util.cu:289-305 | closes the innermost open thing, one state fewer |
| `JsonWriter.Writer.OutputFinalize` | src/util.cu:434-458 | terminates with an empty stack and a text that is one well-formed JSON text of the whole document if and only if nothing infinite was written |
| `JsonWriter.ValueText` | src/util.cu:227-243 | a value's text is appended and nothing before it changes |
| `JsonWriter.CloseText` | src/util.cu:253-281 | closing appends one bracket and pops one state |
| `JsonWriter.ClosedIsWellFormed` | src/util.cu:289-305 | closing all only appends, and the text reads back as the document, unless it holds an infinite value |
| `JsonWriter.AnyRunIsWellFormed` | src/util.cu:206-346 | any sequence of calls that meets the asserts, stopped anywhere, is closed into one JSON text of its document, if and only if no call wrote an infinite value |
| `JsonWriter.RunStarts` | src/util.cu:395-400 | the empty document alone is a run of the writer |
| `JsonWriter.RunGoesOn` | src/util.cu:206-346 | and every run goes on by any permitted call |
| `JsonWriter.SomethingLegal` | src/util.cu:206-281 | the asserts permit a key or the end where a key is due, a value or bracket where a value is, the end of a list in a list, and something until the text is complete |
| `Timers.ColorZeroIsPrefix` | src/comm_ops.cu:715-723 | the ranks of colour 0 come first, so rank 0 is among them when there is any |
| `Timers.InitialIs` | src/comm_ops.cu:715-723 | how many ranks have colour 0: count/factor, or count minus step, rounded up, and at most count |
| `Timers.ExcludeRanks` | src/comm_ops.cu:803-808 | the list passed to shrink is exactly the ranks of the other colour, in order |
| `Timers.Timing.RecordTimer` | src/comm_ops.cu:428-441 | an enabled timer appends one event and flushes a full record |
| `Timers.Timing.RecordIs` | src/comm_ops.cu:428-441 | full batches, then what is pending: the record that the totals below assume of each rank |
| `Timers.Timing.MainSplit` | src/comm_ops.cu:734-873 | the sequence of types and participations a rank records in split and shrink |
| `Timers.Timing.MainGrow` | src/comm_ops.cu:875-1006 | ... and in grow |
| `Timers.SplitLockstep` | src/comm_ops.cu:734-873 | the types do not depend on the colour |
| `Timers.GrowLockstep` | src/comm_ops.cu:875-1006 | nor in grow |
| `Timers.FlushesMeet` | src/comm_ops.cu:428-441 | ranks that record the same types flush equally often, with equal counts and types slot by slot |
| `Timers.ColoursFlushTogether` | src/comm_ops.cu:734-1006 | so ranks of any two colours flush together through a test, whether its timers are fresh, as every sub-communicator's are, or hold earlier events of the same types |
| `Timers.Summary.GatherTiming` | src/comm_ops.cu:557-604 | what the root accumulates from one flush (sums, squares, maxima, participations, rounds), and whether all counts match |
| `Timers.FlushTotal` | src/comm_ops.cu:586-596 | one flush adds every rank's events once, under their own types, although slots nobody took part in are skipped |
| `Timers.EverythingCountedOnce` | src/comm_ops.cu:557-618 | for every flush interval the totals are all times, squares, maxima and participations of all ranks, each event once |
| `Timers.TestCountedOnce` | src/comm_ops.cu:734-1006 | in particular after a split, shrink or grow test in which each rank recorded what its own colour records |
| `Timers.TotalsAre` | src/comm_ops.cu:568-592 | these totals are, over all events of the type, the sum of the times and of their squares, the longest time, and the number that took part |
| `Timers.AllRecordedAre` | src/comm_ops.cu:583-592 | and those events are exactly the ones of that type in any rank's log |

## Left out

- CUDA, NCCL, MPI and GIN calls are abstract steps: a copy, a put and its signal, an ideal barrier, a
  reduction. Memory ordering inside a kernel is that of the barriers around it.
- The multimem all-reduce kernels: their reductions are hardware instructions, and the prefix of
  the fourth does not visit elements exactly once.
- The float average: it depends on an unspecified multiplication precision and a tolerance.
- `Floats.NearestIsExact`: operands that are infinite or NaN yield some NaN; the generators never
  submit one. The special overflow encodings of the e4m3 format are not modelled.
- `FloatSum.GenInOutFloatSum`: an input whose mantissa exceeds the format (only when a group does not fit) is
  excluded, because the source then shifts by a negative count, which its language leaves undefined; likewise
  an exponent beyond an int in `FloatProd.GenInOutFloatProd`.
- What shuffling no ranks returns, which a single rank does before its pre-multiplied sum, is arbitrary: the
  source shifts by the width of the word there, and does not use the value.
- `FloatSum.SumIsExact`: with both signs the condition is sufficient only. When both groups miss their targets by the
  same amount the totals still cancel, and it depends on the tree whether the partial sums are exact.
- The quality of the hash beyond its being a permutation.
- Integral test data and the min and max reductions: their generators need no exactness argument.
- `AllReduce.KernelsAgree`: requires the prefix not to exceed count and blocks of whole warps, and takes
  indices unbounded; the source's 32-bit products can overflow for larger launches.
- `GinMemory.MakeInv`: a put delivers its chunk at once, before its signal, as the library promises; stores go
  element by element. The send windows do not change during a launch.
- `Rma.CollectiveResult`: addresses and offsets count elements; data of the all-to-all and the point-to-point
  exchange is stated out of place only, which is all that the source checks.
- `AlltoAllv.TotalNearlySent`: the source computes in double precision, the model over the reals; sizes are
  not bounded by the width of size_t. Reading the traffic matrix from a file is not modelled.
- `HyperCube.GathersAll`: buffers are sequences of blocks; the elements inside a block move together.
- `JsonWriter.Writer.Double`: a finite value is given by the digits to be printed. What lies past the end of a
  buffer that a terminator misses is not modelled.
- `JsonWriter.Writer.PushState`: the stack is a sequence; reallocation of its array is not modelled.
- `Timers.EverythingCountedOnce`: times are naturals, not doubles.
- The gathering of per-iteration maxima over threads (src/common.cu:379-440), table printing, bandwidth
  formulas, argument parsing and memory reports are not part of this model.
- The device-API benchmarks under src/device_api, the profiler and the python tool are not part of this model.
