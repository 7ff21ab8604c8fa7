# BaseJump STL: verified models

A Dafny 4.11 model of the parts of the BaseJump STL hardware library whose correctness is not
visible from any one line of code, with proofs of what they are for. RTL modules are step functions
over their registers, and classes that update those registers in place; generator scripts are
methods that build the object they emit (a cell order, a case table, a netlist, a bit string).
Properties are stated over every input, every run or every reachable state.

Verify with `dafny verify dfyconfig.toml`.

| file | what it models |
|---|---|
| Powers, Wrappers | powers of two, division and product facts; Option and Result |
| GrayCode, AsyncPointer | Gray codes of every width; the pointer that crosses clock domains through a launch flop and two synchroniser flops, where a sample taken during a launch is any per-bit mix of old and new |
| AsyncFifo, AsyncCredit | the two-clock FIFO and the credit counter, decided by Gray comparison alone |
| Cordic | the integer vectoring loop of the magnitude program |
| Netlist, BoothBlocks, Comp42 | the Booth and 4:2 compressor netlist generators, and the unhardened compressor block |
| BoothRep, BoothStrip, BoothArray | Booth blocks by their parameter vectors, hardened or not; the strips built from them; and the stack of strips that forms a multiplier's partial products |
| Mul32 | the whole 32 by 32 multiplier: strips, compressor tree, extra row, final adder and pipeline stage |
| MeshRing | the generator that stitches a mesh into a ring |
| RoundRobinArb | the arbiter generator and the arbiter it emits |
| CacheBufferQueue, CachePipeline, CacheDma, CacheMiss | the cache's two-entry buffers, its two-stage control, its DMA engine, and the miss unit's state machine that ties them together |
| CacheCommand | the miss unit's decoder, replacement policy, way registers and branches, and the address it names to the DMA engine |
| CacheMissPath | what a miss does as a whole, for every opcode: requests, eviction, fill, tag and track accesses |
| CacheForward | the pipeline, the buffers and the miss unit together with the data: store-to-load forwarding |
| CacheWormhole | the packetiser between the DMA engine and a wormhole network |
| CacheAlu, CacheAmo, CacheSubWord | the atomics' ALU, what atomics mean on numbers and bits, and stores and loads narrower than a word |
| Timekeeper | the multi-clock simulation scheduler |
| ConfigNet | the configuration network's framed test vectors |
| ScatterGather | the concentration and deconcentration permutations |
| DelayLine | the delay line's one-hot controller and tap chain |

Where the code and what it says about itself differ, the model follows the code:

* `bsg_cache.sv:993` withholds `tl_we` while a TAGST waits during a miss, also in the cycle in which
  the miss completes, and does not clear `v_tl_r`; the packet in TL then moves to TV and stays in TL.
  `CachePipeline.ExactlyOnceIff` shows that this is the only way a packet is lost, repeated or
  reordered, and `CacheMiss.StoreRetiresTwice` reaches it from reset with the miss unit in place.
  `CacheForward.LoadsSeeStoresIff` gives the exact cycles that make a load return a wrong word, and
  `CacheForward.OldWordFromReset` such a run from reset: a store, a load of its word and a TAGST.
* `bsg_mesh_to_ring_stitch.py:54-69` assigns `id_o` a concatenation that lists cell (0, 0) first, which
  a packed array takes as its highest element; every cell gets the id of the cell opposite it. By
  `MeshRing.StitchOrder` the ids on the port count along the wired ring if and only if a side is at most
  two.
* `bsg_mul_pipelined.sv:537` instantiates `bsg_mul_green_block`, which no file of the repository defines,
  so the 16 by 16 multiplier stops at its strips, to which `BoothArray.ArrayProduct` applies.
* `bsg_cache_dma_to_wormhole.sv:337` checks that the length field holds `dma_burst_len_p + 1`, but a
  masked write announces `dma_burst_len_p + 2` flits. `CacheWormhole.StreamParsesIff` gives the exact
  condition and `CacheWormhole.CheckedButTooNarrow` a configuration that passes the check and fails.
* The header of `bsg_mesh_to_ring_stitch.py` rules out odd by odd; `MeshRing.RingIffEmitted` proves
  that, and that single rows of three or more are the only other meshes without a ring.
* `bsg_timekeeper::next` reads the top of an empty queue when every clock is due; the loop is taken to
  end there.

## Model

| member | source | states |
|---|---|---|
| GrayCode.ValueToBits | bsg_async/bsg_async_ptr_gray.sv:33-35 | a register of w bits holds its count modulo 2^w |
| GrayCode.IncrementCounts | bsg_async/bsg_async_ptr_gray.sv:46-48 | incrementing a register of any width counts, wrap-around included |
| GrayCode.GrayInjective | bsg_async/bsg_async_ptr_gray.sv:50 | different registers have different Gray codes |
| GrayCode.GrayEqual | bsg_async/bsg_async_fifo.sv:132 | Gray codes are equal if and only if the counts agree modulo 2^w |
| GrayCode.GrayEqualClose | bsg_async/bsg_async_fifo.sv:131-138 | for counts less than a revolution apart, if and only if the counts are equal |
| GrayCode.GrayAdjacent | bsg_async/bsg_async_ptr_gray.sv:50 | the codes of n and n + 1 differ in exactly one position, at every width and across wrap-around |
| GrayCode.SampleIsOldOrNew | bsg_async/bsg_launch_sync_sync.sv:73-80 | any per-bit mix of the old and the new code is one of the two |
| GrayCode.GrayHalfTurn | bsg_async/bsg_async_fifo.sv:134-138 | half a revolution inverts exactly the two top bits of the code |
| AsyncPointer.ResetTracks | bsg_async/bsg_async_ptr_gray.sv:76-81 | the reset registers stand for count zero on both sides |
| AsyncPointer.LaunchTracks | bsg_async/bsg_async_ptr_gray.sv:46-50 | the pre-computed pointer + 1 launches the Gray code of the next count |
| AsyncPointer.CaptureTracks | bsg_async/bsg_launch_sync_sync.sv:73-80 | a capture during a launch is the count just before or just after it |
| AsyncPointer.StepTracks | bsg_async/bsg_async_ptr_gray.sv:46-86 | every edge, with every metastable outcome, moves the registers along unbounded counts |
| AsyncPointer.RunTracks | bsg_async/bsg_launch_sync_sync.sv:52-89 | over any interleaving the synchronised counts never move back, keep sync2 <= sync1 <= sent, and after two watching edges have reached where the sender was |
| AsyncPointer.SynchronisedPointerIsPast | bsg_async/bsg_async_ptr_gray.sv:46-86 | from reset, the far side always sees a count the sender has had |
| AsyncPointer.LaunchSyncSync.constructor | bsg_async/bsg_launch_sync_sync.sv:62-66 | all three flops start at zero |
| AsyncPointer.LaunchSyncSync.ThroughUnits | bsg_async/bsg_launch_sync_sync.sv:198-340 | the 8-bit units and the trailer carry every bit exactly once, in place, for every width |
| AsyncPointer.LaunchSyncSync.LaunchClock | bsg_async/bsg_launch_sync_sync.sv:55-66 | the launch flop takes the data and nothing else changes |
| AsyncPointer.LaunchSyncSync.SyncClock | bsg_async/bsg_launch_sync_sync.sv:73-89 | the first flop takes the sample, the second the first one's old value |
| AsyncPointer.PtrGray.constructor | bsg_async/bsg_async_ptr_gray.sv:76-81 | pointer 0, pointer + 1 at 1, flops at zero |
| AsyncPointer.PtrGray.LaunchClock | bsg_async/bsg_async_ptr_gray.sv:76-86 | a writing-side edge is a Launch step of the pointer |
| AsyncPointer.PtrGray.SyncClock | bsg_async/bsg_launch_sync_sync.sv:73-89 | a watching-side edge is a Sync step |
| AsyncPointer.PtrGray.BothClocks | bsg_async/bsg_launch_sync_sync.sv:55-89 | coincident edges are a Coincident step with any possible sample |
| AsyncFifo.FlagsExact | bsg_async/bsg_async_fifo.sv:131-138 | full if and only if the write count is 2^lg ahead of the synchronised read count, valid if and only if the read count is behind the synchronised write count, for every lg >= 1 |
| AsyncFifo.HoldsAppend | bsg_async/bsg_async_fifo.sv:72-86 | a word written while not full overwrites no unread slot |
| AsyncFifo.ReadsOldest | bsg_async/bsg_async_fifo.sv:83-85 | the word offered is the oldest one not yet dequeued |
| AsyncFifo.StepInv | bsg_async/bsg_async_fifo.sv:46-138 | the inductive invariant over both pointers, the memory and the history is kept by write, read and coincident edges |
| AsyncFifo.RunInv | bsg_async/bsg_async_fifo.sv:107-129 | over any legal run the invariant holds and every synchronised count only advances |
| AsyncFifo.FifoSafe | bsg_async/bsg_async_fifo.sv:46-138 | in every interleaving with legal requests, what comes out is a prefix of what went in, at most 2^lg words are inside, a full memory is flagged full, an empty one never valid, and the word offered is the next one |
| AsyncFifo.FlagsSettle | bsg_async/bsg_async_fifo.sv:107-138 | two reader edges after the last write make valid exact, two writer edges after the last read make full exact |
| AsyncFifo.EverythingDrains | bsg_async/bsg_async_fifo.sv:118-132 | after any legal run, two idle reader edges and one dequeue per remaining word are legal and deliver everything enqueued |
| AsyncFifo.Fifo.constructor | bsg_async/bsg_async_fifo.sv:46-138 | the FIFO starts empty in a state of the invariant, whatever the memory holds |
| AsyncFifo.Fifo.IsFull | bsg_async/bsg_async_fifo.sv:137-138 | the register comparison is the model's full flag |
| AsyncFifo.Fifo.IsValid | bsg_async/bsg_async_fifo.sv:132 | the register comparison is the model's valid flag, and valid means a word is there |
| AsyncFifo.Fifo.Store | bsg_async/bsg_async_fifo.sv:72-81 | the memory's write port changes the addressed slot and no other |
| AsyncFifo.Fifo.WriteEdge | bsg_async/bsg_async_fifo.sv:72-116 | a write edge is the model's step and keeps the invariant |
| AsyncFifo.Fifo.ReadEdge | bsg_async/bsg_async_fifo.sv:83-129 | a read edge is the model's step and returns the oldest word |
| AsyncFifo.Fifo.BothEdges | bsg_async/bsg_async_fifo.sv:72-129 | coincident edges are the model's step for any two possible samples |
| AsyncCredit.ComparesWhole | bsg_async/bsg_async_credit_counter.sv:116-124 | low bits clear and high bits equal is equality of the whole counter with the token count padded by the decimation |
| AsyncCredit.AvailableExact | bsg_async/bsg_async_credit_counter.sv:116-124 | availability is false if and only if the credits known to be free are a multiple of the counter's range |
| AsyncCredit.UnavailableMeansNone | bsg_async/bsg_async_credit_counter.sv:110-124 | without over-return beyond the range, if and only if none is free |
| AsyncCredit.ResetInv | bsg_async/bsg_async_credit_counter.sv:89-92 | the reset value stands for minus the initial credits |
| AsyncCredit.StepInv | bsg_async/bsg_async_credit_counter.sv:89-108 | every edge keeps the counter equal to the credits spent less the initial ones, and free credits never negative |
| AsyncCredit.RunInv | bsg_async/bsg_async_credit_counter.sv:89-108 | so does every run; the token count seen only advances, and after two spending edges it is where the sent count was |
| AsyncCredit.NeverOverspends | bsg_async/bsg_async_credit_counter.sv:83-124 | over any run that spends only when available, credits spent never exceed initial plus received tokens times 2^decimation, and once all are spent availability is false |
| AsyncCredit.AvailabilitySettles | bsg_async/bsg_async_credit_counter.sv:83-124 | over any run from reset with less than the range outstanding, availability is false if and only if no credit the spender has seen is free, and two spending edges without new tokens make it see all of them |
| AsyncCredit.HonestReceiver | bsg_async/bsg_async_credit_counter.sv:71-92 | a receiver that returns tokens only for credits it was sent stays below the range |
| AsyncCredit.EveryCreditSpent | bsg_async/bsg_async_credit_counter.sv:83-124 | no credit is stranded: after any legal run two idle spending edges and one spend per remaining credit are legal, spend every credit and leave availability false |
| AsyncCredit.CreditCounter.constructor | bsg_async/bsg_async_credit_counter.sv:89-108 | the counter starts in the reset state of the model |
| AsyncCredit.CreditCounter.CreditsAvail | bsg_async/bsg_async_credit_counter.sv:116-124 | the wire is the model's availability |
| AsyncCredit.CreditCounter.ReceiveEdge | bsg_async/bsg_async_credit_counter.sv:98-108 | a token edge is the model's step and keeps the invariant |
| AsyncCredit.CreditCounter.SpendEdge | bsg_async/bsg_async_credit_counter.sv:89-94 | a spend edge is the model's step and keeps the invariant |
| AsyncCredit.CreditCounter.BothEdges | bsg_async/bsg_async_credit_counter.sv:89-108 | coincident edges are the model's step with any possible sample, and keep the invariant |
| Cordic.XorSwap | bsg_math/bsg_hypotenuse/c/sqrt.c:94-99 | three exclusive-ors exchange two words of any width |
| Cordic.Vectoring | bsg_math/bsg_hypotenuse/c/sqrt.c:94-141 | the loop computes the iterated vectoring step of the ordered, scaled input |
| Cordic.StepConverges | bsg_math/bsg_hypotenuse/c/sqrt.c:107-141 | one step keeps \|y\| 2^(k-1) <= x + (k-1) 2^(k-1) and never lowers x, truncation included |
| Cordic.Converges | bsg_math/bsg_hypotenuse/c/sqrt.c:94-141 | after iterations 0..n from any non-negative inputs, \|y\| 2^n <= x + n 2^n |
| Cordic.StepNorm | bsg_math/bsg_hypotenuse/c/sqrt.c:109-136 | a step scales x^2 + y^2 by 1 + 4^-i up to an error linear in x + \|y\| |
| Cordic.NormAccumulates | bsg_math/bsg_hypotenuse/c/sqrt.c:107-141 | over the loop the errors add up to at most the exact gain times the sum of the per-step ones |
| Cordic.RoundingLinear | bsg_math/bsg_hypotenuse/c/sqrt.c:107-141 | that sum is at most linear in the result per iteration |
| Cordic.MagnitudeBound | bsg_math/bsg_hypotenuse/c/sqrt.c:94-141 | the squared result is the squared input magnitude times the exact gain within the accumulated bound |
| Cordic.FitsInt32 | bsg_math/bsg_hypotenuse/c/sqrt.c:86-141 | inputs below 2^22 and at most 32 iterations keep every value within 32-bit ints |
| BoothBlocks.GenerateBody | hard/tsmc_180_250/bsg_misc/bsg_mul/bsg_booth_4_block_gen.py:118-240 | the row loop emits the body netlist, cell by cell in order, and every stable state of what it emits conserves value |
| BoothBlocks.BodyConserves | hard/tsmc_180_250/bsg_misc/bsg_mul/bsg_booth_4_block_gen.py:132-236 | for any row count, in every stable state, weighted s + 2c plus the outgoing carry equals the weighted partial-product bits plus the incoming carry |
| BoothBlocks.BodyCarryIndependent | hard/tsmc_180_250/bsg_misc/bsg_mul/bsg_booth_4_block_gen.py:132-236 | cl_o is a function of the last row's dots alone, never of cr_i |
| BoothBlocks.BodySettles | hard/tsmc_180_250/bsg_misc/bsg_mul/bsg_booth_4_block_gen.py:132-236 | for every port value a stable state exists |
| BoothBlocks.GenerateCornice | hard/tsmc_180_250/bsg_misc/bsg_mul/bsg_booth_4_block_gen_cornice.py:118-255 | heights 8 and 6 emit the two cornices, in every stable state worth their dots and negate bits; 0 emits nothing, and any other height fails on the undefined start row |
| BoothBlocks.CorniceSettles | hard/tsmc_180_250/bsg_misc/bsg_mul/bsg_booth_4_block_gen_cornice.py:138-251 | both cornices have a stable state for every port value |
| BoothBlocks.CorniceConserves | hard/tsmc_180_250/bsg_misc/bsg_mul/bsg_booth_4_block_gen_cornice.py:138-251 | both cornices conserve the dots plus every row's negate bit at its lowest column |
| BoothBlocks.GenerateEnd | hard/tsmc_180_250/bsg_misc/bsg_mul/bsg_booth_4_block_gen_end_cornice.py:125-265 | in every stable state of what the row loop emits, sums, doubled carries and the carry still under way are worth the running dots less the sign bits, a one in every column and the incoming carry; from five rows on nothing is under way and cl_o is low |
| BoothBlocks.EndConserves | hard/tsmc_180_250/bsg_misc/bsg_mul/bsg_booth_4_block_gen_end_cornice.py:139-260 | the end block adds the running dots, the sign bits negatively, and the constant 255 (127 for seven rows); its cl_o is low |
| BoothBlocks.EndSettles | hard/tsmc_180_250/bsg_misc/bsg_mul/bsg_booth_4_block_gen_end_cornice.py:139-260 | the end block has a stable state for every port value |
| BoothRep.RepConserves | hard/tsmc_180_250/bsg_misc/bsg_mul/bsg_mul_booth_4_block_rep.sv:26-63 | for any parameter vectors, a block conserves the bits they pick plus the ones they put in, whether it is the macro that matches or the general columns |
| BoothRep.CorniceNibbles | hard/tsmc_180_250/bsg_misc/bsg_mul/bsg_mul_booth_4_block_rep.sv:30-31 | the cornices' vectors put each row's predecessor's negate bit at column 2i and its dots from column 2i + 2 on |
| BoothRep.EndNibbles | hard/tsmc_180_250/bsg_misc/bsg_mul/bsg_mul_booth_4_block_rep.sv:32-33 | the end blocks' vectors bar row i's dot in column 2i and put a one behind it |
| BoothRep.FirstEndNibbles | bsg_misc/bsg_mul_pipelined.sv:127-142 | the first strip's end, which no macro matches, bars rows 0 and 1 in its first column |
| BoothRep.NoCarryOut | bsg_misc/bsg_mul_pipelined.sv:122-125 | a block whose top column adds nothing for its first three rows has no intermediate carry out, so the verify_zero check never fires |
| BoothRep.RepSettles | bsg_misc/bsg_mul/bsg_mul_booth_4_block.sv:17-40 | every block, hardened or not, has a stable state for every port value |
| BoothStrip.StripConserves | bsg_misc/bsg_mul_pipelined.sv:652-707 | for any vectors with the negate bits in the first block, any number of blocks of any heights, hardened or not, abutted cl_o to cr_i: the outputs are worth the dots and negate bits, barred dots as sign bits, plus the ones, less the carry out |
| BoothStrip.LayoutNibbles | bsg_misc/bsg_mul_pipelined.sv:127-142 | what the multiplier's strips pick in every column of every row: negate bits, dots, a barred sign dot and a one behind it |
| BoothStrip.LayoutConserves | hard/tsmc_180_250/bsg_misc/bsg_mul/bsg_booth_4_block_gen_end_cornice.py:139-260 | a cornice, blocks of any heights and an end cornice conserve dots and negate bits plus 255 (127, or 64 for the first strip) at the end's base weight, and carry nothing out |
| BoothStrip.LayoutOnes | bsg_misc/bsg_mul_pipelined.sv:127-142 | the ones amount to 255 at the end block's base weight, 127 for the seven-column end, and 64 for the first strip's |
| BoothStrip.RowValue | bsg_misc/bsg_mul_pipelined.sv:51-55 | a row of dots with its sign bit negative is the Booth digit times the multiplicand, less its negate bit |
| BoothStrip.StripMultiplies | bsg_misc/bsg_mul_pipelined.sv:735-769 | a strip with a cornice, any division into blocks and any of the three ends, wired to the padded multiplicand and to recoded digits, is worth four Booth rows times the multiplicand plus its ones, and carries nothing out |
| BoothStrip.TopCarryLow | bsg_misc/bsg_mul_pipelined.sv:169-175 | the carry output of an eight-column end's top column, which the tree leaves out, is low |
| BoothStrip.StripSettles | bsg_misc/bsg_mul_pipelined.sv:652-707 | for every multiplicand, digits, vectors and division into blocks there is a stable, linked and wired strip |
| BoothArray.RecodeSum | bsg_misc/bsg_mul_pipelined.sv:413-449 | the recoded digits at weights 4^i sum to the operand, signed or unsigned, for every even width |
| BoothArray.OnesCancel | bsg_misc/bsg_mul_pipelined.sv:127-315 | the strips' ends fit together: each continues the run of ones before it, and all of them amount to one bit just above the product |
| BoothArray.ArrayMultiplies | bsg_misc/bsg_mul_pipelined.sv:127-318 | stacked strips, the first with its own end, add each other's leftover negate bit, so their outputs are worth the digits times the multiplicand plus the ones |
| BoothArray.GreenValue | bsg_misc/bsg_mul_pipelined.sv:818-876 | the green dots are worth the last row's negate bit and the extra row |
| BoothArray.ArrayProduct | bsg_misc/bsg_mul_pipelined.sv:127-318 | for operands of 8n bits, n at least 2, signed or unsigned, all strips and the green dots are worth exactly four times the product plus 2^(16n + 2), so the product modulo 2^(16n) |
| BoothArray.ArraySettles | bsg_misc/bsg_mul_pipelined.sv:127-318 | for every multiplicand, digits and division into blocks a stable array exists |
| Comp42.GenerateComp42 | hard/tsmc_180_250/bsg_misc/bsg_mul/bsg_comp42_gen.py:115-155 | the row loop emits the compressor netlist, every stable state of which conserves value |
| Comp42.CompConserves | hard/tsmc_180_250/bsg_misc/bsg_mul/bsg_comp42_gen.py:128-152 | four words and a carry become two words and a carry of the same value, for any row count |
| Comp42.CompCarryIndependent | hard/tsmc_180_250/bsg_misc/bsg_mul/bsg_comp42_gen.py:128-152 | two stable states with the same inputs have the same cl_o, whatever their cr_i |
| Comp42.CompBlockConserves | bsg_misc/bsg_mul/bsg_mul_comp42_rep.sv:12-25 | the emitted block and the unhardened one, which takes its words in the opposite order, conserve the same value |
| Comp42.CompBlockSettles | bsg_misc/bsg_mul/bsg_mul_comp42.sv:3-17 | both have a stable state for every port value |
| Mul32.ChainConserves | bsg_misc/bsg_mul_pipelined.sv:607-649 | a row of compressor blocks of any heights turns four words and a carry into two words and a carry of the same value |
| Mul32.CsaConserves | bsg_misc/bsg_mul_pipelined.sv:791-816 | a row of full adders turns three words into two of the same value |
| Mul32.TreeValue | bsg_misc/bsg_mul_pipelined.sv:166-408 | crr01 with its half adder, crr23, crr03, the last row of adders and the slices between them add up the strips and the green dots, less what lies above 64 bits |
| Mul32.Product | bsg_misc/bsg_mul_pipelined.sv:89-410 | in every stable state, for all 32-bit operands, signed or unsigned, z_o is the product modulo 2^64, and verify_zero is zero |
| Mul32.PipelinedProduct | bsg_misc/bsg_mul_pipelined.sv:226-377 | with the pipeline stage, after any run z_o is the product of the operands of the last enabled cycle |
| Mul32.PipelinedMul.Clock | bsg_misc/bsg_mul_pipelined.sv:248-375 | an enabled edge loads every register of the stage, another none |
| Mul32.ChainSettles | bsg_misc/bsg_mul_pipelined.sv:607-649 | for any words a stable row of compressors exists |
| Mul32.MulSettles | bsg_misc/bsg_mul_pipelined.sv:89-410 | for all operands a stable state of the multiplier exists with the source's block heights, hardened or not |
| MeshRing.EvenColumnsOrder | bsg_noc/bsg_mesh_to_ring_stitch.py:73-83 | the loops for even X append the cells in the closed-form order |
| MeshRing.EvenRowsOrder | bsg_noc/bsg_mesh_to_ring_stitch.py:88-98 | the loops for odd X and even Y append the reflected order |
| MeshRing.PositionInverse | bsg_noc/bsg_mesh_to_ring_stitch.py:75-83 | a cell's position in the order leads back to the cell |
| MeshRing.CellAtInverse | bsg_noc/bsg_mesh_to_ring_stitch.py:75-83 | the cell at a position is in the grid and leads back to the position |
| MeshRing.FollowsIsHamiltonian | bsg_noc/bsg_mesh_to_ring_stitch.py:72-85 | that order visits each cell once, every consecutive pair and last to first being neighbours |
| MeshRing.StitchOrder | bsg_noc/bsg_mesh_to_ring_stitch.py:72-104 | for every size the script has a branch for, odd X with even Y and 1 by 2 included, its order is a Hamiltonian cycle, and the ids its literal puts on the port count along that cycle if and only if a side is at most two |
| MeshRing.NoRingOddByOdd | bsg_noc/bsg_mesh_to_ring_stitch.py:9 | no such cycle exists when both sides are odd |
| MeshRing.NoRingInLine | bsg_noc/bsg_mesh_to_ring_stitch.py:102-104 | nor in a single row of three or more |
| MeshRing.RingIffEmitted | bsg_noc/bsg_mesh_to_ring_stitch.py:72-104 | a non-empty mesh has a ring if and only if the script emits one |
| MeshRing.IndexUnique | bsg_noc/bsg_mesh_to_ring_stitch.py:40-42 | each cell has one position, so the matrix is well defined |
| MeshRing.FillMatrix | bsg_noc/bsg_mesh_to_ring_stitch.py:37-42 | the id matrix filled in place holds every cell's position |
| MeshRing.WiringsInverse | bsg_noc/bsg_mesh_to_ring_stitch.py:45-53 | the forward and backward wirings are inverse permutations between neighbours, so every input is driven once |
| MeshRing.PrintConfig | bsg_noc/bsg_mesh_to_ring_stitch.py:37-69 | one pair of assignments per cell, in the emitted order, each to the cell before and the cell after; and a literal that gives each cell on the port the position of the cell opposite it |
| RoundRobinArb.CalculateGrants | bsg_misc/bsg_round_robin_arb.py:18-34 | pattern i asks that the i-th requester after last be set and the nearer ones clear, and grants it alone |
| RoundRobinArb.EmitTable | bsg_misc/bsg_round_robin_arb.py:183-208 | the printing loops emit the idle row and every last's patterns, tagged with the granted requester |
| RoundRobinArb.PatternExact | bsg_misc/bsg_round_robin_arb.py:18-34 | a pattern matches if and only if its requester is the first one asking |
| RoundRobinArb.TableExact | bsg_misc/bsg_round_robin_arb.py:183-208 | for every n, last < n and request vector exactly one row matches: the idle one if nobody asks, else the one granting the first requester cyclically after last |
| RoundRobinArb.JustBelowExact | bsg_misc/bsg_round_robin_arb.py:239-243 | the hand-written wrap and the truncating subtraction both give the requester cyclically below the tag |
| RoundRobinArb.NextLastBelow | bsg_misc/bsg_round_robin_arb.py:226-249 | last stays below n under both policies |
| RoundRobinArb.WaitShrinks | bsg_misc/bsg_round_robin_arb.py:226-249 | a passed-over requester gets nearer by one with each accept of another and never falls back |
| RoundRobinArb.BoundedWaiting | bsg_misc/bsg_round_robin_arb.py:226-249 | over any run, a requester that keeps asking sees at most n - 1 other accepts before its own, under both policies |
| RoundRobinArb.ServedWithinN | bsg_misc/bsg_round_robin_arb.py:226-249 | among any n accepts while it keeps asking, one is its own |
| RoundRobinArb.FullLoadGoesRound | bsg_misc/bsg_round_robin_arb.py:226-249 | with everyone asking and every grant taken the k-th accept is requester last + 1 + k modulo n |
| RoundRobinArb.SelectedStays | bsg_misc/bsg_round_robin_arb.py:239-243 | under hold_on_valid a selected requester that keeps asking stays selected until acked, over any run |
| RoundRobinArb.PlainSwitchesIff | bsg_misc/bsg_round_robin_arb.py:244-245 | without it, while a selected requester keeps asking and no grant is taken, it loses the selection if and only if a requester cyclically between last and it is asking that was not before, for every n and any run |
| RoundRobinArb.PlainMaySwitch | bsg_misc/bsg_round_robin_arb.py:244-245 | such a run exists: the selection moves before the ack |
| RoundRobinArb.Arbiter.constructor | bsg_misc/bsg_round_robin_arb.py:226-249 | the arbiter holds the emitted table and last 0 |
| RoundRobinArb.Arbiter.Outputs | bsg_misc/bsg_round_robin_arb.py:183-224 | v, tag, one-hot selection and gated grants are those of the first requester after last |
| RoundRobinArb.Arbiter.Clock | bsg_misc/bsg_round_robin_arb.py:226-249 | the register takes 0 on reset and last_n otherwise |
| CacheBufferQueue.RefinesFifo | bsg_cache/bsg_cache_buffer_queue.sv:46-124 | a cycle is one of an unbounded FIFO with bypass if and only if no third element arrives while none leaves |
| CacheBufferQueue.RunConserves | bsg_cache/bsg_cache_buffer_queue.sv:46-124 | over any legal run what was put in is what was taken out plus at most two held, in order |
| CacheBufferQueue.BufferQueue.constructor | bsg_cache/bsg_cache_buffer_queue.sv:99-102 | the queue starts empty whatever its data registers hold |
| CacheBufferQueue.BufferQueue.Outputs | bsg_cache/bsg_cache_buffer_queue.sv:46-92 | the output is the front of what is held and offered |
| CacheBufferQueue.BufferQueue.Clock | bsg_cache/bsg_cache_buffer_queue.sv:99-122 | count and data registers step to the FIFO's next contents |
| CachePipeline.StepPipe | bsg_cache/bsg_cache.sv:140-164 | a cycle adds the accepted packet behind everything retired or under way, and repeats the one in TL exactly in a duplicating cycle |
| CachePipeline.RunPipe | bsg_cache/bsg_cache.sv:973-996 | over any run, packets retired or under way outnumber those accepted by the number of duplicating cycles |
| CachePipeline.ExactlyOnceIff | bsg_cache/bsg_cache.sv:973-996 | every accepted packet passes TL, then TV, then retires exactly once and in order if and only if no TAGST waits in a miss-completing cycle with TL occupied |
| CachePipeline.StoreRetiresTwice | bsg_cache/bsg_cache.sv:992-996 | a run from reset in which a store retires twice |
| CachePipeline.SbufHasRoom | bsg_cache/bsg_cache.sv:983-984 | a store retiring into a full store buffer always pushes an entry out, a waiting load being held off |
| CachePipeline.StepSbuf | bsg_cache/bsg_cache.sv:1149-1161 | every cycle keeps the store buffer at two entries or fewer, holding the retired stores not yet written, in order |
| CachePipeline.TbufRoom | bsg_cache/bsg_cache.sv:1168-1180 | whole-word stores in TL and TV plus track-buffer entries never exceed two, although no hazard protects that buffer |
| CachePipeline.StepTbuf | bsg_cache/bsg_cache.sv:1168-1180 | every cycle keeps the track buffer's order as well |
| CachePipeline.BuffersSafe | bsg_cache/bsg_cache.sv:1149-1180 | in every run neither buffer gets a third entry; the store buffer writes every store, whole or partial, and every atomic as often as it retired and in order, the track buffer every whole-word store, and neither ever writes a load, a tag store or anything else |
| CachePipeline.WritersOnce | bsg_cache/bsg_cache.sv:1149-1173 | counted, the packets a buffer is to write: each store and atomic as often as it occurs, nothing else |
| CachePipeline.BuffersDrain | bsg_cache/bsg_cache.sv:1157-1180 | a buffer with something to write writes it unless a packet that reads its memory is accepted, or waits in TL with nothing missing, or the miss unit or DMA engine uses that memory |
| CachePipeline.Pipeline.constructor | bsg_cache/bsg_cache.sv:140-146 | both stages and both buffers start empty |
| CachePipeline.Pipeline.Control | bsg_cache/bsg_cache.sv:973-996 | the control expressions over the registers are the model's signals |
| CachePipeline.Pipeline.ClockBuffers | bsg_cache/bsg_cache.sv:1149-1180 | both buffers step with the packet in TV as input |
| CachePipeline.Pipeline.ClockStages | bsg_cache/bsg_cache.sv:140-320 | the TL and TV registers load, hold or clear |
| CachePipeline.Pipeline.Clock | bsg_cache/bsg_cache.sv:140-320 | one edge is the model's step, keeps both buffer invariants and accounts for every packet |
| CacheMiss.EnvHolds | bsg_cache/bsg_cache_miss.sv:295-569 | once the miss unit is done, and while nothing misses, its own and the DMA engine's requests are low |
| CacheMiss.StepInv | bsg_cache/bsg_cache_miss.sv:295-569 | the DMA engine works only on the miss unit's command, the miss unit only on a miss, and both buffers stay empty from the moment a miss is taken up |
| CacheMiss.RunHolds | bsg_cache/bsg_cache.sv:445-560 | every run of the three together is one the pipeline control's assumptions allow |
| CacheMiss.CacheExactlyOnceIff | bsg_cache/bsg_cache.sv:973-996 | the exactly-once condition and the buffer bounds with nothing left to assume |
| CacheMiss.DmaUndisturbed | bsg_cache/bsg_cache.sv:1149-1158 | while the DMA engine moves a block the store buffer writes nothing, and during an eviction no packet is accepted |
| CacheMiss.MissAdvances | bsg_cache/bsg_cache_miss.sv:295-569 | a miss gets nearer to done in every cycle except while the DMA engine works or its result is not taken, and is done only after a recovery; which way it goes is stated in CacheMissPath |
| CacheMiss.MissFinishes | bsg_cache/bsg_cache_miss.sv:295-569 | a miss that is taken up is done after at most six cycles besides those in which it waits for the DMA engine |
| CacheMiss.MissTakenUp | bsg_cache/bsg_cache_miss.sv:299-311 | in any run from reset a miss is taken up within three cycles: nothing enters the buffers and at most one packet holds them up while they drain |
| CacheMiss.MemoryPortsExclusive | bsg_cache/bsg_cache.sv:1019-1095 | the accepted packet, the recovering one, the miss unit and DMA engine, and the buffers never ask for the same memory port in one cycle |
| CacheMiss.StoreRetiresTwice | bsg_cache/bsg_cache.sv:992-996 | the duplicate reached from reset by a lock operation, a store and a TAGST |
| CacheDma.StepCounter | bsg_cache/bsg_cache_dma.sv:97-115 | the counter is in its state's range, zero when idle, after every cycle of every command |
| CacheDma.StepFifos | bsg_cache/bsg_cache_dma.sv:113-154 | neither FIFO loses, repeats or reorders a beat |
| CacheDma.AddressCommands | bsg_cache/bsg_cache_dma.sv:281-294 | an address command offers one packet, a write for an eviction, until it is taken, and moves no data |
| CacheDma.BlockFits | bsg_cache/bsg_cache_dma.sv:121-139 | the in FIFO takes a beat whenever it holds less than a block, and at least two |
| CacheDma.EvictStarts | bsg_cache/bsg_cache_dma.sv:301-312 | the evict command reads beat 0 and leaves the counter at one |
| CacheDma.EvictStep | bsg_cache/bsg_cache_dma.sv:341-364 | a beat is emitted exactly when the out FIFO has room, the next one is read behind it, and done comes exactly with the last |
| CacheDma.EvictionExact | bsg_cache/bsg_cache_dma.sv:301-364 | under any stalls an eviction is done in the burst_len-th cycle with room and has emitted exactly burst_len beats in block order, each right wherever one of its words is tracked |
| CacheDma.WroteOneMore | bsg_cache/bsg_cache_dma.sv:185-233 | one masked beat extends what has been written of the block |
| CacheDma.FillStep | bsg_cache/bsg_cache_dma.sv:326-338 | a beat is written exactly when one has arrived, and done comes exactly with the last |
| CacheDma.FillExact | bsg_cache/bsg_cache_dma.sv:326-415 | a fill writes the oldest burst_len beats over the chosen way's block and nothing else, no tracked word on a track miss, and the snoop word is the one requested |
| CacheDma.EvictionMerges | bsg_cache/bsg_cache_dma.sv:288-294 | writing an eviction back under the packet's mask leaves in memory what a program saw, stale words notwithstanding |
| CacheDma.FillMerges | bsg_cache/bsg_cache_dma.sv:214-233 | after a fill the cache holds what a program saw on a track miss, and memory's block otherwise |
| CacheDma.FillConfined | bsg_cache/bsg_cache_dma.sv:170-233 | other sets and ways keep their contents |
| CacheDma.FillEvictRoundTrip | bsg_cache/bsg_cache_dma.sv:326-364 | a block filled and then evicted whole goes back as it came |
| CacheDma.DmaEngine.constructor | bsg_cache/bsg_cache_dma.sv:406-409 | the engine starts idle |
| CacheDma.DmaEngine.Control | bsg_cache/bsg_cache_dma.sv:244-370 | the case statement's assignments are the model's control outputs |
| CacheDma.DmaEngine.AccessMemory | bsg_cache/bsg_cache_dma.sv:199-233 | a masked write or a latched read of the addressed row |
| CacheDma.DmaEngine.ClockSnoop | bsg_cache/bsg_cache_dma.sv:381-415 | the snoop register takes the requested word of the matching beat |
| CacheDma.DmaEngine.ClockFifos | bsg_cache/bsg_cache_dma.sv:113-154 | both FIFOs and their histories step |
| CacheDma.DmaEngine.Clock | bsg_cache/bsg_cache_dma.sv:244-421 | one edge is the model's step |
| CacheCommand.CommandStands | bsg_cache/bsg_cache_miss.sv:181-185 | until the DMA engine is done the miss unit stays where it is, names the same way, set and word, and loads no tracking bits |
| CacheCommand.StepInv | bsg_cache/bsg_cache_miss.sv:573-589 | every cycle keeps registers in range and tracking bits loaded only in the cycle after a miss is taken up |
| CacheCommand.EvictionServed | bsg_cache/bsg_cache_miss.sv:397-453 | in any run from reset, by the time the miss unit goes on from evicting, the DMA engine has emitted exactly the block of the addressed set in the way on dma_way_o, and a fill that follows is into that way; CacheMissPath.EvictsVictim states which way that is |
| CacheCommand.FillServed | bsg_cache/bsg_cache_miss.sv:457-506 | by the time it goes on to recover, the arrived block has been written over the way on dma_way_o and nothing else, and the snoop word is the one TV addresses; CacheMissPath.VictimSaved states which way that is |
| CacheMissPath.MissesWhen | bsg_cache/bsg_cache.sv:369-381 | which packets miss, by opcode and by what the tags and track bits say |
| CacheMissPath.HitIs | bsg_cache/bsg_cache.sv:340-355 | the priority encoder over the hit bits finds the lowest way that holds the block, if and only if one does |
| CacheMissPath.VictimIs | bsg_cache/bsg_cache_miss.sv:116-128 | the way to replace is the lowest invalid and unlocked one, or without one the LRU way |
| CacheMissPath.StepUnderway | bsg_cache/bsg_cache_miss.sv:295-569 | every cycle of a miss, in every state and under any stalls, keeps what it has asked for, evicted, filled and marked so far equal to what its opcode and the set's state call for, until the packet retires |
| CacheMissPath.VictimSaved | bsg_cache/bsg_cache_miss.sv:313-338 | in any run from reset, once a way is being filled or given to a store without a fill, it is the hit way on a track miss and otherwise the invalid or LRU one, and the block it held has been emitted if and only if it was valid, dirty and to be replaced |
| CacheMissPath.EvictsVictim | bsg_cache/bsg_cache_miss.sv:334-416 | the miss unit evicts only a valid and dirty way, the one a flush names or hits or, on a tag miss, the one to replace |
| CacheMissPath.NothingServed | bsg_cache/bsg_cache_miss.sv:374-394 | an invalidation, an unlock, and a lock of a block in the cache ask for nothing, evict nothing and fill nothing |
| CacheMissPath.FlushServed | bsg_cache/bsg_cache_miss.sv:342-453 | a flush recovers only after the way it names or hits has been written back, to the address of its own tag, if and only if it is valid and dirty; it never fills |
| CacheMissPath.StoreServed | bsg_cache/bsg_cache_miss.sv:509-545 | with word tracking a whole-word store that misses has its victim written back if and only if valid and dirty, and never fills |
| CacheMissPath.FetchServed | bsg_cache/bsg_cache_miss.sv:313-506 | every other miss asks for its block, writes the victim back if and only if it is valid, dirty and replaced, and ends with the arrived block over that way, or on a track miss over its untracked words |
| CacheMissPath.MemoriesServed | bsg_cache/bsg_cache_miss.sv:295-545 | whatever the miss, the tags are written once; with word tracking the track memory is read once, and written once if the block is fetched or given to a store |
| CacheMissPath.TrackServed | bsg_cache/bsg_cache_miss.sv:573-590 | with word tracking, the tracking bits the DMA engine evicts and fills by are those the track memory gives for the set in the cycle after the miss is taken up |
| CacheMissPath.NothingBetween | bsg_cache/bsg_cache_miss.sv:299-311 | between misses, and while one waits to be taken up or taken, nothing is requested and no block moves |
| CacheForward.ForwardIsFold | bsg_cache/bsg_cache_sbuf.sv:82-147 | the comparators and merging muxes give a word with every buffered and entering store applied, youngest last |
| CacheForward.MemStep | bsg_cache/bsg_cache.sv:1046-1063 | draining an entry into the data memory changes nobody's view of it |
| CacheForward.StepMem | bsg_cache/bsg_cache.sv:1046-1158 | every cycle keeps the data memory with the buffered stores on top equal to the memory the retired stores and fills make |
| CacheForward.MemoryByte | bsg_cache/bsg_cache.sv:741-790 | the memory loads are held to, byte by byte: a retiring store of either kind or atomic writes the bytes of its word its mask selects, an atomic those computed from the word all earlier stores made or, if it missed, from the snoop word; a fill writes whole words; nothing else changes a byte |
| CacheForward.ReadsWhen | bsg_cache/bsg_cache.sv:1046-1063 | the data memory is read when a load or atomic is accepted, again for the one in TL when the miss unit recovers, and by the DMA engine; its output stays otherwise |
| CacheForward.StepTl | bsg_cache/bsg_cache.sv:973-1063 | a load waiting in TL has read what the data memory still holds, or will read again before the miss is done, or is a copy whose original writes the difference: every cycle keeps that if and only if it is not a harmful duplicating one |
| CacheForward.StepTv | bsg_cache/bsg_cache.sv:292-320 | a load in TV that hits has the right value in its registers |
| CacheForward.StepInv | bsg_cache/bsg_cache.sv:973-1181 | a cycle keeps all of that if and only if it is not a harmful one |
| CacheForward.LoadsSeeStores | bsg_cache/bsg_cache.sv:1149-1161 | in every run from reset without a harmful cycle, under any stalls, misses, fills and duplicates, every load and atomic that hits returns the word that all stores retired before it have made, in the memory that MemoryByte describes |
| CacheForward.LoadsSeeStoresIff | bsg_cache/bsg_cache.sv:992-996 | the condition is exact: a run from reset has no harmful cycle if and only if, wherever it is stopped and two more results are taken, every load and atomic has returned the right word |
| CacheForward.CopiesReturn | bsg_cache/bsg_cache.sv:992-996 | what the two copies return: the first the word with the store in it, the second the one read before it |
| CacheForward.OldWordFromReset | bsg_cache/bsg_cache.sv:992-996 | from reset, a store that misses, a load of its word and a waiting TAGST: the load returns the new word and then, a second time, the old one |
| CacheWormhole.HeaderRoundTrip | bsg_cache/bsg_cache.svh:67-76 | every field of the packed header can be read back |
| CacheWormhole.HeaderRoutes | bsg_cache/bsg_cache_dma_to_wormhole.sv:155-170 | the header carries the far end's coordinates to route by, this end's to answer to, and the opcode of the packet's kind |
| CacheWormhole.LenFitsExactly | bsg_cache/bsg_cache_dma_to_wormhole.sv:164-168 | the length field is right for reads and whole-block writes, and for masked writes if and only if it holds burst + 2; otherwise it is zero |
| CacheWormhole.DecodeEncode | bsg_cache/bsg_cache_dma_to_wormhole.sv:150-172 | a message decodes to itself if and only if its mask fits in a flit |
| CacheWormhole.StreamParsesIff | bsg_cache/bsg_cache_dma_to_wormhole.sv:150-250 | a stream parses by its length fields back into its messages if and only if every length and mask fits |
| CacheWormhole.StepSend | bsg_cache/bsg_cache_dma_to_wormhole.sv:173-250 | every cycle keeps the flits sent equal to the encoded messages plus the beginning of the next, with every packet and data flit in exactly one |
| CacheWormhole.SentParsesIff | bsg_cache/bsg_cache_dma_to_wormhole.sv:150-250 | over any run, what was sent parses into exactly the packets and bursts handed over and the beginning of the next, under the same condition |
| CacheWormhole.WideEnough | bsg_cache/bsg_cache_dma_to_wormhole.sv:331-338 | a length field that holds burst + 2 and flits as wide as the mask are enough for every run |
| CacheWormhole.CheckedButTooNarrow | bsg_cache/bsg_cache_dma_to_wormhole.sv:331-338 | a configuration that passes the module's checks and whose masked writes announce no flits |
| CacheWormhole.StripNext | bsg_cache/bsg_cache_dma_to_wormhole.sv:280-314 | one more returned flit is a header or one more flit of data |
| CacheWormhole.StepRecv | bsg_cache/bsg_cache_dma_to_wormhole.sv:280-314 | every cycle keeps what was delivered equal to what was taken without headers |
| CacheWormhole.DeliversPayloads | bsg_cache/bsg_cache_dma_to_wormhole.sv:92-314 | over any run, with or without the return FIFO, exactly the returned payloads are delivered, in order |
| CacheWormhole.DmaToWormhole.constructor | bsg_cache/bsg_cache_dma_to_wormhole.sv:321-325 | both state machines start in reset |
| CacheWormhole.DmaToWormhole.SendClock | bsg_cache/bsg_cache_dma_to_wormhole.sv:173-250 | one edge of the send side is the model's step, with the flit on the link |
| CacheWormhole.DmaToWormhole.RecvClock | bsg_cache/bsg_cache_dma_to_wormhole.sv:280-314 | one edge of the receive side is the model's step, with the data the cache sees |
| CacheAlu.TopHalfAlu | bsg_cache/bsg_cache.sv:693-741 | operating on 32-bit operands in the top half of the 64-bit ALU and shifting back is the 32-bit operation, for all nine atomics |
| CacheAlu.WiredWordIsWord | bsg_cache/bsg_cache.sv:693-741 | so a word atomic's bytes are those of the 32-bit operation |
| CacheAlu.WordBytes | bsg_cache/bsg_cache.sv:695-756 | taking a word apart into bytes and together again changes nothing |
| CacheAlu.DoublewordBytes | bsg_cache/bsg_cache.sv:695-756 | nor for a doubleword |
| CacheAmo.BelowNum64 | bsg_cache/bsg_cache.sv:723-726 | the ALU's unsigned comparison is that of the operands' numbers |
| CacheAmo.LessNum64 | bsg_cache/bsg_cache.sv:719-722 | its signed comparison is that of their two's-complement numbers |
| CacheAmo.SumBytes64 | bsg_cache/bsg_cache.sv:718 | its sum has the value of the operands' sum modulo 2^64 |
| CacheAmo.Bytes64 | bsg_cache/bsg_cache.sv:715-717 | and, or and exclusive or work bit by bit on every byte |
| CacheAmo.SameValue | bsg_cache/bsg_cache.sv:695-703 | different bytes of one length stand for different numbers, so a result is determined by its value |
| CacheAmo.Alu32Meant | bsg_cache/bsg_cache.sv:695-741 | every operation on words gives the bytes meant: the register for a swap, the bits for and, or and exclusive or, the sum modulo 2^32, the least or greatest as unsigned or two's-complement numbers |
| CacheAmo.Alu64Meant | bsg_cache/bsg_cache.sv:695-741 | and on doublewords, modulo 2^64 |
| CacheSubWord.SameSlice | bsg_cache/bsg_cache.sv:762-776 | two addresses are in the same aligned slice if and only if word and slice select agree |
| CacheSubWord.MaskIsSlice | bsg_cache/bsg_cache.sv:762-776 | the decoded and expanded mask covers exactly the bytes of the addressed slice |
| CacheSubWord.StoreAgrees | bsg_cache/bsg_cache.sv:741-790 | a sub-word store is a write of its bytes at the aligned address |
| CacheSubWord.MaskStoreAgrees | bsg_cache/bsg_cache.sv:781-790 | a masked store is a byte-wise write under its mask |
| CacheSubWord.LoadAgrees | bsg_cache/bsg_cache.sv:922-948 | the word a load of any size gives stands for the number that the aligned bytes of memory make, in two's complement for a signed load and unsigned for an unsigned one |
| CacheSubWord.ExtendedValue | bsg_cache/bsg_cache.sv:935-936 | extension keeps the number that the bytes stand for |
| CacheSubWord.MaskLoadAgrees | bsg_cache/bsg_cache.sv:907-917 | a masked load reads the word's bytes and clears the others |
| CacheSubWord.AtomicIsMeant | bsg_cache/bsg_cache.sv:693-756 | for every word width the wired ALU gives the atomic of its size, as CacheAmo.Meant states it on numbers and bits |
| CacheSubWord.RunAgrees | bsg_cache/bsg_cache.sv:693-778 | any sequence of stores, masked stores and atomics keeps word memory and byte memory in agreement |
| CacheSubWord.LoadAfterStores | bsg_cache/bsg_cache.sv:693-948 | after any such sequence any load gives the number that the aligned bytes of byte-addressed memory make, signed or unsigned, for every word width |
| Timekeeper.TopExists | bsg_test/bsg_nonsynth_dpi_clock_gen.hpp:76-78 | a non-empty queue has a top |
| Timekeeper.StepForward | bsg_test/bsg_nonsynth_dpi_clock_gen.cpp:26-44 | time strictly increases |
| Timekeeper.ToggleOnTime | bsg_test/bsg_nonsynth_dpi_clock_gen.hpp:83-104 | a toggle keeps level and next edge as the toggle count gives them |
| Timekeeper.StepInv | bsg_test/bsg_nonsynth_dpi_clock_gen.cpp:14-67 | every registration and every next() keep the invariant |
| Timekeeper.EveryEdgeOnTime | bsg_test/bsg_nonsynth_dpi_clock_gen.cpp:14-93 | over any interleaving: for a clock of cycle c (c - 1 if odd) born at b, edge k is at the t with 2 (t - b) = k c and the toggle count is 2 (now - b) / c, level and next edge follow from that count, and the times of next() strictly increase and are exactly the clocks' edges |
| Timekeeper.HalfIs | bsg_test/bsg_nonsynth_dpi_clock_gen.hpp:94 | the division truncates towards zero: an odd cycle counts as its neighbour nearer to zero |
| Timekeeper.TimeAdvancesIff | bsg_test/bsg_nonsynth_dpi_clock_gen.cpp:92 | next() moves time on if and only if the cycle is at least two; from -1 to 1 time stops, below it goes back |
| Timekeeper.BsgTimekeeper.RegisterClock | bsg_test/bsg_nonsynth_dpi_clock_gen.cpp:59-93 | a new clock is low, its first edge half a cycle from now, truncated towards zero |
| Timekeeper.BsgTimekeeper.Top | bsg_test/bsg_nonsynth_dpi_clock_gen.hpp:76-78 | some clock with the least next edge |
| Timekeeper.BsgTimekeeper.PopDue | bsg_test/bsg_nonsynth_dpi_clock_gen.cpp:22-41 | the popping loop toggles exactly the clocks due, to be pushed back |
| Timekeeper.BsgTimekeeper.NextEdge | bsg_test/bsg_nonsynth_dpi_clock_gen.cpp:14-52 | time moves to the least edge, exactly the clocks due there toggle, and the collection is preserved |
| ConfigNet.Dec2Bin | bsg_legacy/bsg_tag/config_net/sim/generate_tb.py:82-88 | the string sends the low n bits of the number |
| ConfigNet.InsertFrameBits | bsg_legacy/bsg_tag/config_net/sim/generate_tb.py:90-101 | the string sends the framed data |
| ConfigNet.FramePlaces | bsg_legacy/bsg_tag/config_net/sim/generate_tb.py:90-101 | bit i is sent i / 8 places late and every ninth place is zero |
| ConfigNet.UnframedFramed | bsg_legacy/bsg_tag/config_net/sim/generate_tb.py:90-101 | removing the frame bits recovers the data |
| ConfigNet.TestPacket | bsg_legacy/bsg_tag/config_net/sim/generate_tb.py:301-318 | a packet's string sends valid, length, id and framed data with frame bits between |
| ConfigNet.TestVector | bsg_legacy/bsg_tag/config_net/sim/generate_tb.py:299-348 | the vector sends the reset sequence and then every packet in order, with the bits counted; an undeclared id fails |
| ConfigNet.VectorLength | bsg_legacy/bsg_tag/config_net/sim/generate_tb.py:302-343 | for data of the declared widths test_vector_bits is the number of bits sent |
| ConfigNet.ResetOnlyAtStart | bsg_legacy/bsg_tag/config_net/sim/generate_tb.py:337-348 | ten ones in a row occur at the start of the vector and nowhere else |
| ConfigNet.ReadsBackIff | bsg_legacy/bsg_tag/config_net/sim/generate_tb.py:299-319 | every id, length and data can be read back if and only if ids and packet lengths are below 256 |
| ScatterGather.ForwardVec | bsg_dataflow/bsg_scatter_gather.py:61-89 | the k-th entry is the k-th set position, the rest the highest unset one; the data path form holds the distances |
| ScatterGather.BackVec | bsg_dataflow/bsg_scatter_gather.py:99-126 | a set position's entry is its rank |
| ScatterGather.Inverse | bsg_dataflow/bsg_scatter_gather.py:61-126 | bk[fwd[k]] = k below the popcount, fwd[bk[p]] = p at set positions, vec[fwd[bk[p]]] = vec[p] everywhere, all entries in range |
| ScatterGather.DatapathCountsZeros | bsg_dataflow/bsg_scatter_gather.py:61-89 | the data path form is the non-decreasing count of zeros below each gathered bit, and gathering keeps order |
| ScatterGather.BackFormsAgree | bsg_dataflow/bsg_scatter_gather.py:99-126 | both back forms agree at set positions |
| ScatterGather.GatherScatter | bsg_dataflow/bsg_scatter_gather.py:61-126 | gathering packs the set positions' data in order, and scattering restores it |
| DelayLine.GenerateCtl | hard/tsmc_28/bsg_dmc/bsg_rp_dly_line_v3.py:143-194 | the three pieces emit one register per tap with the end registers cross-wired |
| DelayLine.StepWalks | hard/tsmc_28/bsg_dmc/bsg_rp_dly_line_v3.py:17-41 | a one-hot register stays one-hot and walks one place, saturating at the ends, when the counter is enabled |
| DelayLine.ColumnIsOr | hard/tsmc_28/bsg_clk_gen/bsg_rp_clk_gen_osc_unit_v3.py:18-44 | a column of nand gates passes its feedback input or, if a tap is set, the clock |
| DelayLine.ChainIsOr | hard/tsmc_28/bsg_dmc/bsg_rp_dly_line_v3.py:60-82 | the whole chain is the clock if and only if some tap is set |
| DelayLine.Propagate | hard/tsmc_28/bsg_dmc/bsg_rp_dly_line_v3.py:66-82 | following the generated wires gives the same |
| DelayLine.ControlWalks | hard/tsmc_28/bsg_dmc/bsg_rp_dly_line_v3.py:97-194 | over any run the register's position is the saturating walk of the phase samples |
| DelayLine.DirectionIsOlderSample | hard/tsmc_28/bsg_dmc/bsg_rp_dly_line_v3.py:138-144 | a step's direction is the phase sample of two cycles before |
| DelayLine.AlwaysClocked | hard/tsmc_28/bsg_dmc/bsg_rp_dly_line_v3.py:46-194 | in every run from reset the register is one-hot, one phase is active and the chain's output is its input clock |
| DelayLine.StableOutsideCounter | hard/tsmc_28/bsg_dmc/bsg_rp_dly_line_v3.py:97-108 | the register changes only on the edge that ends the counter phase, so never in or around the trigger phase |
| DelayLine.LoadsAfterMove | hard/tsmc_28/bsg_dmc/bsg_rp_dly_line_v3.py:60-65 | from the third cycle on the taps are loaded half a cycle after the register moved, once in four cycles |
| DelayLine.DlyLine.constructor | hard/tsmc_28/bsg_dmc/bsg_rp_dly_line_v3.py:97-108 | the reset state: trigger off, last register set |
| DelayLine.DlyLine.NextControl | hard/tsmc_28/bsg_dmc/bsg_rp_dly_line_v3.py:17-41 | evaluating every emitted register's gates gives the model's next control |
| DelayLine.DlyLine.Clock | hard/tsmc_28/bsg_dmc/bsg_rp_dly_line_v3.py:97-194 | one cycle of all registers is the model's step |

## Left out

- Metastability is a per-bit choice of old or new; its probability, timing, physical design and reset sequencing are not modelled, and runs start from the documented reset state.
- `bsg_async_fifo` with a control-word split or data masked by valid: the same memory and pointers with the word cut in two or gated.
- `sqrt.c`: the floating-point scale factor, the final rounding and the error statistics; C ints are unbounded here, with `Cordic.FitsInt32` giving the inputs for which that is exact. `Cordic.Vectoring` exchanges its two variables directly, `Cordic.XorSwap` being the code's way of doing it.
- Cell names, text layout and placement of the generators; the copies for other foundries, which differ in cell names only.
- The 16 by 16 multiplier's compressor row and final adder, which need the missing `bsg_mul_green_block`.
- The arbiter's `hold_on_sr` option, whose request strings are indexed from the other end than the grant table, and `reset_on_sr`.
- CachePipeline.Pipeline.Clock: takes the miss unit's and the DMA engine's outputs as inputs; `CacheMiss` supplies them.
- Opcodes are reduced to what the control distinguishes. In `CacheMiss` and `CacheForward` whether a packet misses is a free input that stays the same while it is in TV, and so are the miss unit's branch conditions; `CacheCommand` computes both from the packet in TV and the set's tags, valid, lock and dirty bits.
- CacheForward.LoadsSeeStores: the memory and the returned words count a duplicated packet as often as it retires; it covers packets that hit; one that misses gets the DMA engine's snoop word, for which see `CacheDma.FillExact`. The data memory is indexed by word address, ways and tags being outside the model, and a fill writes any words.
- CacheDma.EvictionExact: takes way, address and tracking bits to stand still while a command is carried out; `CacheCommand` proves that they do, and `CacheMiss.DmaUndisturbed` that nobody else uses the data memory then.
- `CacheCommand` takes what the tag, stat and track memories hold for the set, and the way the LRU tree points to once locked ways are overridden, as inputs: the memories' contents over time and the LRU tree are not modelled, only how often the miss unit uses them. A tag match is of whole tags, and a packet that enters TV has its tags, valid and lock bits as the tag memory gave them.
- Addresses of the data memory are the triple of set, way and beat rather than packed bits, and memory that was never written reads as zero.
- `CacheSubWord` covers the word as a store writes it and a load reads it, `CacheForward` the store buffer in between. Sizes the word is too narrow for are excluded, as the source leaves them undefined.
- ConfigNet.TestVector: takes data strings of zeros and ones, which the script assumes of its test file; argument parsing, the tree of relay nodes and the testbench text are not modelled.
- The delay line's second delay unit is the same circuit fed by the first; the phase detector's sample is a free input and gate delays are not modelled.
- DPI calls, scopes and simulator glue of the clock generators.
