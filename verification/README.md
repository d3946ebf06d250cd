# A verified model of cuTile's runtime, encoders and sample kernels

This project models the parts of cuTile Python whose correctness rests on an argument rather
than on a test, and proves that argument:

- the **stream staging allocator**: memory that the device may still use is never handed out
  again, in any run over any number of streams, and the linked lists behind it do what the
  abstract step system does (`StreamModel`, `StreamSafety`, `StreamMemory`, `StreamHeap`,
  `StreamAllocate`, `StreamBuffer`);
- **launch argument specialisation**: flattening, annotation matching, the constant stream and
  the signature read back from it, the disjointness test, and the little stack machine for sizes
  (`ArraySpec`, `ArrayReaders`, `ArgumentTree`, `ArgumentConstants`, `Signature`, `Aliasing`,
  `HostProgram`);
- the open-addressing **hash map** and the software-stack **coroutine** runner (`OpenAddressing`, `Coroutine`);
- **numerical algorithms** with exact specifications: the three-factor FFT over any commutative
  ring, tiled online softmax, and rounding to small floating-point formats (`Ring`, `Fft`,
  `Attention`, `FloatEncoding`);
- the **bytecode encoder** with its reader (`Basic`, `CodeBuilding`, `Hints`, `Container`,
  `Bytecode`, `Writer`);
- **tile scheduling and locking** in the sample kernels (`Swizzle`, `MoE`, `LayerNorm`);
- the **payload** that carries a launch to another process (`IpcPayload`, `IpcHandles`).

`Bits`, `Monoid`, `Sequences` and `Wrappers` hold what several of them need.

Code that changes state in the original is a class or a method here, proved against a
specification function or against steps of an abstract model; what the code is for is then
proved of that function or model. The fields of the pool and of its chunks and stream buffers
are tied to a snapshot of them, and the snapshot to the state that the history of steps leads
to; so every theorem about runs holds of the linked structures.

`dafny verify dfyconfig.toml` checks everything.

## Model

| member | source | states |
|---|---|---|
| `StreamSafety.StepInv` | cext/stream_buffer.cpp:60-258 | every step of opening, allocating, closing, reclaiming and device progress keeps the invariant: chunks apart, free chunks of the current capacity, events of a queue's own stream, every allocation in flight held inside one chunk, no two of them overlapping |
| `StreamSafety.ReachableInv` | cext/stream_buffer.cpp:60-258 | the invariant holds after every run |
| `StreamSafety.RunSafe` | cext/stream_buffer.cpp:69-258 | after any run, allocations whose transaction is open or whose events are not reached are pairwise disjoint, aligned, inside memory that the pool owns, and apart from every free chunk |
| `StreamSafety.FreshAllocation` | cext/stream_buffer.cpp:212-238 | what a carving step hands out has the requested size and overlaps no earlier allocation still in flight, whatever happened before |
| `StreamSafety.PlacesDiffer` | cext/stream_buffer.cpp:60-179 | chunks at different places, in queues or free, have different addresses on host and device |
| `StreamSafety.DissolveAll` | cext/stream_buffer.cpp:69-101 | when the device is idle and no transaction is open, draining and retiring alone empties every queue: no chunk is stuck |
| `StreamMemory.HeldExactly` | cext/stream_buffer.cpp:54-135 | the memory that was allocated and not freed in a run is exactly that of the chunks of the state: no leak, no use after free |
| `StreamMemory.HeldAt` | cext/stream_buffer.cpp:54-135 | host and device memory of every live chunk are held |
| `StreamAllocate.RoundUpIsRoundUp` | cext/stream_buffer.cpp:220 | the mask computes the least multiple of the alignment that is not below the size |
| `Bits.RoundUpLeast` | cext/stream_buffer.cpp:220 | a multiple within one alignment above the size is the least one |
| `StreamAllocate.GrownExactly` | cext/stream_buffer.cpp:168-175 | the new capacity is the first doubling, of at least one, that stays in range and fits four allocations; growing fails exactly if no doubling is one |
| `StreamAllocate.GrownFits` | cext/stream_buffer.cpp:168-175 | the new capacity is a larger multiple of the old one, and four allocations fit |
| `StreamBuffer.StreamBufferPool.constructor` | cext/stream_buffer.cpp:50-52 | a new pool stands for the empty history and is valid with any driver that holds no memory and has no work: every stream can be opened |
| `StreamBuffer.StreamBufferPool.ReclaimChunk` | cext/stream_buffer.cpp:60-67 | a chunk of the current capacity joins the free list, another one is deleted and its memory freed |
| `StreamBuffer.StreamBufferPool.TryDrain` | cext/stream_buffer.cpp:70-77 | takes exactly one drain step, or none: then nothing is in front of the transaction head, or the driver has just said that the first chunk's event is not complete |
| `StreamBuffer.StreamBufferPool.PollEvents` | cext/stream_buffer.cpp:69-79 | drains this queue, and no other, until nothing is in front of the transaction head or the driver says that the first chunk's event is not complete |
| `StreamBuffer.StreamBufferPool.RetireEntry` | cext/stream_buffer.cpp:89-94 | one retire step: the last entry takes the place of the dropped one, ids and buffers stay paired |
| `StreamBuffer.StreamBufferPool.Reclaim` | cext/stream_buffer.cpp:81-101 | only drain and retire steps happen, and the caller's own open transaction is kept; in every queue that is left there is nothing to reclaim, or the driver said no meanwhile; and no queue is left that is empty and has no transaction |
| `StreamBuffer.ReclaimedExactly` | cext/stream_buffer.cpp:69-101 | if the driver never said no, only streams with an open transaction are left after reclaiming, with nothing in front of the transaction head |
| `StreamBuffer.StreamBufferPool.NewChunk` | cext/stream_buffer.cpp:103-126 | unused, aligned host and device memory and an event, or nothing allocated at all |
| `StreamBuffer.StreamBufferPool.DeleteFreeChunks` | cext/stream_buffer.cpp:129-135 | exactly the memory of the free chunks is freed, and the list is empty |
| `StreamBuffer.StreamBufferPool.AllocStreamBuffer` | cext/stream_buffer.cpp:137-148 | a stream buffer in its initial state that no stream uses |
| `StreamBuffer.StreamBufferPool.OfferFree` | cext/stream_buffer.cpp:158-166 | the first free chunk, whose capacity is the current one: the run-time check cannot fail |
| `StreamBuffer.StreamBufferPool.GrowCapacity` | cext/stream_buffer.cpp:170-174 | the doubling loop computes the specified capacity |
| `StreamBuffer.StreamBufferPool.AllocateChunk` | cext/stream_buffer.cpp:150-179 | without a free chunk everything that can be is reclaimed, for a large size the capacity is raised, and otherwise nothing happens; a chunk comes off the free list if there is one then, else from the driver; on failure the pool is valid and there was no free chunk |
| `StreamBuffer.StreamBufferPool.FindStream` | cext/stream_buffer.cpp:181-187 | the index of the stream's entry, or that there is none |
| `StreamBuffer.StreamBufferPool.Open` | cext/stream_buffer.cpp:189-210 | one open step; the transaction's entry is the stream's own buffer; without a stream id nothing happens; the program aborts exactly if the stream has a transaction open |
| `StreamBuffer.StreamBufferPool.LinkTail` | cext/stream_buffer.cpp:226-230 | the chunk is appended to the queue, after the old tail if there is one |
| `StreamBuffer.StreamBufferPool.CarveTail` | cext/stream_buffer.cpp:233-237 | the bytes come off the upper end of the tail's free part, which becomes the transaction head if there is none |
| `StreamBuffer.StreamBufferPool.Allocate` | cext/stream_buffer.cpp:212-238 | sizes that cannot be rounded up are refused; otherwise the history grows as described and the bytes handed out are aligned and apart from everything in flight; it fails only if the driver was needed; the frame lets further calls follow |
| `StreamBuffer.StreamBufferPool.RecordEvents` | cext/stream_buffer.cpp:251-254 | exactly the chunks from the transaction head on get the event; the program aborts exactly if the driver cannot record one |
| `StreamBuffer.StreamBufferPool.Close` | cext/stream_buffer.cpp:240-258 | one close step, nothing if the transaction was never opened, and an abort exactly if the driver cannot record an event |
| `StreamBuffer.StreamBufferPool.Launch` | cext/tile_kernel.cpp:2442-2493 | open, allocate, issue copy and kernel, and close in any case: the stream can be opened again, and the bytes stay in flight until all work issued to the stream by then is complete; it aborts exactly if a transaction is open already or an event cannot be recorded |
| `ArraySpec.DtypeRoundTrip` | cext/tile_kernel.cpp:657-669 | packing a data type into 32 bits loses nothing |
| `ArraySpec.PackRoundTrip` | cext/tile_kernel.cpp:720-733 | unpacking undoes packing if and only if the rank fits 31 bits and the index width is 32 or 64 |
| `ArraySpec.FillRowMajorStrides` | cext/tile_kernel.cpp:735-751 | in place, only the stride words change, to the row-major strides in 64-bit arithmetic; refused exactly if 32-bit indices are asked for and a stride so computed does not fit |
| `ArraySpec.TestRightExactly` | cext/tile_kernel.cpp:735-751 | the test for 32-bit indices, on strides that wrap around, is right of all arrays it refuses, and of those it accepts exactly if every true stride is a 64-bit number |
| `ArraySpec.WrappedStrideAccepted` | cext/tile_kernel.cpp:744-746 | an input on which it is not: a stride of 2^64 wraps around to zero |
| `ArraySpec.SmallSizesSuffice` | cext/tile_kernel.cpp:735-751 | where sizes fit 32-bit indices, as two of the readers make sure, the test is right and the true strides are stored |
| `ArraySpec.StridesExact` | cext/tile_kernel.cpp:735-751 | the words stored are the true strides exactly if these are in the range of a signed 64-bit word |
| `ArraySpec.ComputeSpecializationBits` | cext/tile_kernel.cpp:753-814 | computes the word of specialisation bits |
| `ArraySpec.SpecWordBit` | cext/tile_kernel.cpp:753-814 | every bit of that word says what it is for |
| `ArraySpec.ElementsDisjoint` | cext/tile_kernel.cpp:803-811 | the pass over neighbouring dimensions decides the disjointness condition |
| `ArraySpec.SortedUnique` | cext/tile_kernel.cpp:796 | any sort of the (stride, shape) pairs gives the same sequence |
| `ArraySpec.DisjointTestSound` | cext/tile_kernel.cpp:789-811 | the test implies that distinct index tuples have distinct offsets, for every rank |
| `ArraySpec.RowMajorDisjoint` | cext/tile_kernel.cpp:735-751 | row-major strides of any all-positive shape pass the test, also where dimensions of size one tie strides |
| `ArraySpec.DisjointBitSound` | cext/tile_kernel.cpp:853-863 | the bit in the AND of several words says that each of the arrays has disjoint elements |
| `ArraySpec.RowMajorHasBit` | cext/tile_kernel.cpp:789-811 | row-major arrays without empty dimensions always have the bit |
| `ArrayReaders.ReadArray` | cext/tile_kernel.cpp:1030-1259 | each reader accepts exactly what is specified for it, and yields these words |
| `ArrayReaders.ReadFits` | cext/tile_kernel.cpp:1113-1245 | what is read from a DLPack capsule or a PyTorch tensor fits the index type |
| `ArrayReaders.WideSizeIsRead` | cext/tile_kernel.cpp:1073-1077 | the CUDA array interface lets a size of 2^32 through, with 32-bit indices |
| `ArrayReaders.ByteStridesKept` | cext/tile_kernel.cpp:1085-1093 | strides in bytes are kept exactly if they are multiples of the element's width |
| `ArrayReaders.ByteStrideCut` | cext/tile_kernel.cpp:1091-1092 | a stride of six bytes becomes one element of four |
| `ArrayReaders.NoOverflowIn32Bits` | cext/tile_kernel.cpp:766-769 | of words that fit 32-bit indices, no product that the specialisation bits are computed from overflows |
| `ArgumentTree.Cursor.Next` | cext/tile_kernel.cpp:831-836 | reads and drops the first element |
| `ArgumentTree.FlattenPyargs` | cext/tile_kernel.cpp:2147-2173 | appends the types with brackets and the leaves; fails exactly if tuples are nested too deeply |
| `ArgumentTree.KindsOfFlattened` | cext/tile_kernel.cpp:2496-2516 | classifying the flattened types and leaves gives the bracket sequence of the arguments exactly if every leaf is supported |
| `ArgumentTree.GetParameterKinds` | cext/tile_kernel.cpp:2496-2516 | the loop computes that bracket sequence, or fails exactly if a leaf is unsupported |
| `ArgumentTree.FlattenAnnotation` | cext/tile_kernel.cpp:1594-1669 | matching an annotation with an argument succeeds exactly if the shapes agree, uses up the argument's kinds and pushes one annotation for each leaf |
| `ArgumentTree.FlatSize` | cext/tile_kernel.cpp:1586-1669 | there are as many flat annotations as leaves |
| `ArgumentTree.FlattenAnnotations` | cext/tile_kernel.cpp:1671-1683 | all kinds are used up, so the final check cannot fail |
| `ArgumentConstants.NormalizeDim` | cext/tile_kernel.cpp:841-850 | an axis from either end, or an error exactly if it is out of range |
| `ArgumentConstants.ArrayTypeConstantBuilder.Update` | cext/tile_kernel.cpp:858-888 | the bits are ANDed; it fails exactly if a static size differs from the first array's |
| `ArgumentConstants.ArrayTypeConstantBuilder.Finalize` | cext/tile_kernel.cpp:890-907 | writes type, bits and static sizes; aborts exactly if an axis is out of range |
| `ArgumentConstants.AbortsExactly` | cext/tile_kernel.cpp:890-907 | extraction of a leaf aborts the program if and only if it is a single array that its reader accepts, or a list of one, with a static axis out of range |
| `ArgumentConstants.AxisOutOfRangeAborts` | cext/tile_kernel.cpp:1317-1337 | an input on which it does |
| `ArgumentConstants.WideArrayAborts` | cext/tile_kernel.cpp:1073-1077 | another one, which only the CUDA array interface accepts |
| `ArgumentConstants.ExtractPyLong` | cext/tile_kernel.cpp:1377-1406 | a constant is written with its signedness; a value that does not fit is an error |
| `ArgumentConstants.ExtractArray` | cext/tile_kernel.cpp:1316-1337 | reads the array and writes its constants, or fails as specified for its reader |
| `ArgumentConstants.ExtractPyList` | cext/tile_kernel.cpp:1464-1546 | writes one set of constants for all items, exactly if they are alike |
| `ArgumentConstants.ExtractArg` | cext/tile_kernel.cpp:1685-1707 | the leaf's constants are appended, or its extraction fails |
| `Signature.ExtractCudaArgs` | cext/tile_kernel.cpp:1709-1728 | succeeds exactly if every leaf does, with all constants in order |
| `Signature.ReadStaticShape` | cext/tile_kernel.cpp:978-993 | reads back the static sizes; fails exactly if an axis is named twice |
| `Signature.ParseArrayConstraint` | cext/tile_kernel.cpp:913-1012 | reads exactly the constants of the arrays and rebuilds the whole constraint; fails exactly if the data type has no name, or a static axis is named twice or has a negative size |
| `Signature.MakeArrayConstraint` | src/cuda/tile/compilation/_signature.py:106-168 | the constraint's own checks, exactly when they fail, and which bounds and divisors they leave out |
| `Signature.ArrayClaimExactly` | cext/tile_kernel.cpp:965-1008 | everything claimed of one array (strides and their lower bound, sizes, divisors, alignment, internal aliasing, index type) is true of it if and only if no stride is negative, and sizes and strides fit the index type |
| `Signature.LeafClaimsExactly` | cext/tile_kernel.cpp:1316-1570 | of an array that was extracted and parsed, the claims are true if and only if no stride is negative and, where the CUDA array interface let it through, sizes and strides fit the index type |
| `Signature.NegativeStrideLaunched` | cext/tile_kernel.cpp:1232-1244 | a reversed PyTorch tensor is extracted and parsed, and its claims are false |
| `Signature.WideArrayLaunched` | cext/tile_kernel.cpp:1073-1077 | so is an array of 2^32 elements with 32-bit indices |
| `Aliasing.SignatureHoldsExactly` | cext/tile_kernel.cpp:994-1008 | everything the signature claims of a launch is true if and only if each array meets these conditions and no two parameters share memory |
| `Aliasing.RowMajorShareExactly` | src/cuda/tile/compilation/_signature.py:50-55 | two row-major arrays share memory if and only if their ranges of bytes meet |
| `Aliasing.EmptySharesNothing` | src/cuda/tile/compilation/_signature.py:50-55 | an array without elements shares none |
| `Aliasing.ArrayTwiceLaunched` | cext/tile_kernel.cpp:1003 | an array passed once makes the signature true, passed twice false |
| `Signature.ParseElement` | cext/tile_kernel.cpp:1730-1750 | reads exactly the leaf's constants |
| `Signature.Reader.ParseParamConstraint` | cext/tile_kernel.cpp:1752-1775 | reads exactly one argument off all three streams and rebuilds its nesting |
| `Signature.ParseParameterConstraints` | cext/tile_kernel.cpp:1777-1796 | parsing what extraction wrote uses up all streams and rebuilds nesting and every value; it fails exactly if a data type has no name, or a static axis is named twice or has a negative size |
| `HostProgram.Parse` | cext/tile_kernel.cpp:1886-1942 | one pass decides acceptance; a missing program is the constant zero, whatever is expected; what is accepted leaves the expected number of results exactly if it is not missing or one is expected |
| `HostProgram.ResultsExactly` | cext/tile_kernel.cpp:1886-1942 | the same of every source and every number: an accepted program can be run safely, and leaves the expected number of results if and only if it was given or that number is one |
| `HostProgram.MissingProgramLeavesOne` | cext/tile_kernel.cpp:1887-1888 | a missing program for the shape and stride of a rank-one array is accepted, and leaves one value where two are expected |
| `HostProgram.AcceptedExactly` | cext/tile_kernel.cpp:1886-1942 | a program is accepted exactly if it spells the postfix encoding of the expected number of expressions that fit the stack, with 64-bit attributes |
| `HostProgram.Decodes` | cext/tile_kernel.cpp:1900-1936 | every program that passes the stack test is the encoding of the expressions it leaves |
| `HostProgram.EncodesAll` | cext/tile_kernel.cpp:1900-1936 | an encoding passes exactly if the expressions fit the stack, and decodes to them |
| `HostProgram.Eval` | cext/tile_kernel.cpp:1862-1884 | running an accepted program stays inside the stack, uses all attributes and leaves the values of its expressions, or does what C++ leaves undefined: exactly if a kernel argument is missing, or a sum or product leaves the signed 64-bit numbers |
| `HostProgram.RoundUpValue` | cext/tile_kernel.cpp:1862-1884 | for a power of two, the mask yields the least multiple not below the value |
| `OpenAddressing.MaskIsMod` | cext/hash_map.h:102-107 | masking is the remainder, the number of buckets being a power of two |
| `OpenAddressing.EmptyBucket` | cext/hash_map.h:76-108 | with fewer keys than buckets some bucket is empty, so probes end |
| `OpenAddressing.HashMap.constructor` | cext/hash_map.h:44-49 | four empty buckets hold the empty map |
| `OpenAddressing.HashMap.Lookup` | cext/hash_map.h:100-109 | ends at the key's bucket if it is in the map, else at the empty bucket at the end of its chain |
| `OpenAddressing.HashMap.Find` | cext/hash_map.h:63-68 | answers exactly for the keys of the map |
| `OpenAddressing.HashMap.Insert` | cext/hash_map.h:70-86 | the first value of a key wins; when the table doubles; arrays are kept or new |
| `OpenAddressing.HashMap.Rehash` | cext/hash_map.h:111-138 | twice the buckets hold the same map, found by stored hashes only |
| `OpenAddressing.HashMap.MoveItems` | cext/hash_map.h:121-131 | all items arrive in the new table |
| `OpenAddressing.FirstWinsAt` | cext/hash_map.h:70-75 | what the specification answers for a key is the first value written for it |
| `OpenAddressing.RunOperations` | cext/hash_map.h:63-138 | any sequence of inserts and finds on a new table answers like a first-write-wins map, and ends early, where the program aborts, only after at least SIZE_MAX / 8 operations |
| `Coroutine.RunCoroutine` | cext/coroutine_util.cpp:32-108 | the loop returns the value or exception of recursive awaiting |
| `Coroutine.LoopIffRecursion` | cext/coroutine_util.cpp:44-107 | the loop ends on exactly the coroutines that recursion ends on, with the same outcome |
| `Coroutine.LoopSound` | cext/coroutine_util.cpp:44-107 | from any stack, a loop that ends agrees with finishing the frames recursively |
| `Coroutine.LoopComplete` | cext/coroutine_util.cpp:44-107 | from any stack, if recursion ends, the loop ends after a known number of resumptions |
| `Coroutine.OutcomeUnique` | cext/coroutine_util.cpp:44-107 | the outcome of recursive awaiting does not depend on how long it is given |
| `Ring.PairsAreRing` | samples/FFT.py:111-149 | pairs with the kernel's real and imaginary arithmetic are a commutative ring |
| `Ring.RealsAreScalars` | samples/FFT.py:111-149 | the reals meet what the theorems ask of the components |
| `Fft.TwiddleAt` | samples/FFT.py:168-193 | entry (i, j) of a table is the root of unity to the power i j |
| `Fft.PipelineAt` | samples/FFT.py:107-158 | every output element is a triple sum over the input |
| `Fft.PipelineIsDft` | samples/FFT.py:107-158 | contract, twiddle and permute, three times, compute the transform in natural order, over any commutative ring |
| `Fft.KernelIsPipeline` | samples/FFT.py:55-164 | the kernel on packed real and imaginary parts is the pipeline over pairs |
| `Fft.KernelIsDft` | samples/FFT.py:55-164 | the packed output is the discrete Fourier transform of the packed input, for all factors and any root of unity |
| `Attention.BeforeMaskStart` | samples/AttentionFMHA.py:73-81 | tiles in front of the mask start hold permitted keys only |
| `Attention.VisitedTiles` | samples/AttentionFMHA.py:71-81 | the loop visits at least one tile, and every permitted key |
| `Attention.MaskedIsPermitted` | samples/AttentionFMHA.py:96-106 | in a visited tile exactly the permitted keys have a score |
| `Attention.MaximumStep` | samples/AttentionFMHA.py:110 | the running maximum stays the maximum of the exponents of the permitted keys so far |
| `Attention.Update` | samples/AttentionFMHA.py:108-129 | one round keeps the sums relative to the new maximum, which is finite |
| `Attention.FirstKey` | samples/AttentionFMHA.py:84-110 | after the first tile the maximum is finite |
| `Attention.Finish` | samples/AttentionFMHA.py:132 | the quotient of the accumulators is the softmax-weighted sum, whatever the maximum; the divisor is positive |
| `Attention.FmhaRow` | samples/AttentionFMHA.py:60-134 | a row's output is the softmax-weighted sum of the values over exactly its permitted keys |
| `FloatEncoding.ListedAreRegular` | src/cuda/tile/_bytecode/float.py:30-41 | the signed formats meet what the theorems ask of a format |
| `FloatEncoding.Increasing` | src/cuda/tile/_bytecode/float.py:30-41 | larger patterns stand for larger numbers |
| `FloatEncoding.EncodesNearest` | src/cuda/tile/_bytecode/float.py:131-173 | the encoder returns the nearest pattern, ties to even, across the subnormal boundary and the carry into the exponent; above the largest exponent it overflows |
| `FloatEncoding.NearestIsUnique` | src/cuda/tile/_bytecode/float.py:162-173 | there is only one nearest even pattern |
| `FloatEncoding.Saturates` | src/cuda/tile/_bytecode/float.py:146-173 | for every signed format, rounding and overflow together clamp the nearest pattern at the top one |
| `FloatEncoding.InfinityEncodes` | src/cuda/tile/_bytecode/float.py:176-203 | infinities get the top pattern: infinity, NaN or the largest number, as the format has it |
| `FloatEncoding.InfinityKeptExactly` | src/cuda/tile/_bytecode/float.py:176-203 | encoding and decoding gives an infinity back exactly in the IEEE formats |
| `FloatEncoding.InfinityLost` | src/cuda/tile/_bytecode/float.py:178-181 | in F8E4M3FN, infinity becomes the NaN pattern 0x7F |
| `FloatEncoding.NanEncodes` | src/cuda/tile/_bytecode/float.py:176-203 | every NaN, quiet or signalling, becomes a NaN of its sign, or an error where the format has none |
| `FloatEncoding.DecodesValue` | src/cuda/tile/_bytecode/float.py:61-91 | ordinary patterns decode to the number they stand for, sign included |
| `FloatEncoding.DecodesSpecial` | src/cuda/tile/_bytecode/float.py:74-79 | special patterns decode to infinities and NaNs of their sign |
| `FloatEncoding.RoundTrip` | src/cuda/tile/_bytecode/float.py:61-173 | encoding after decoding is the identity on every pattern that is not a NaN |
| `FloatEncoding.NanStaysNan` | src/cuda/tile/_bytecode/float.py:61-203 | a NaN pattern comes back as a NaN of the same sign |
| `FloatEncoding.NanBack` | src/cuda/tile/_bytecode/float.py:61-203 | what a NaN pattern of an IEEE format comes back as: itself with the quiet bit, payload 1 without it |
| `FloatEncoding.NanRoundTripExactly` | src/cuda/tile/_bytecode/float.py:61-203 | a NaN pattern comes back exactly if it has the quiet bit or payload 1, or all ones is the format's only NaN |
| `FloatEncoding.PayloadLost` | src/cuda/tile/_bytecode/float.py:195-201 | half-precision 0x7C02 comes back as 0x7C01 |
| `FloatEncoding.ListedIsExponential` | src/cuda/tile/_bytecode/float.py:37-39 | the unsigned format is one of powers of two |
| `FloatEncoding.ExponentialNearest` | src/cuda/tile/_bytecode/float.py:94-128 | its encoder picks the nearest power of two, the larger one from the middle; what is too large becomes NaN |
| `FloatEncoding.ExponentialRoundTrip` | src/cuda/tile/_bytecode/float.py:61-128 | all its patterns, the NaN included, survive decoding and encoding |
| `Basic.EncodeVarint` | src/cuda/tile/_bytecode/basic.py:37-42 | the loop, counted by bit length, writes the unsigned LEB128 encoding |
| `Basic.VarintRoundTrip` | src/cuda/tile/_bytecode/basic.py:37-42 | it is read back, whatever follows |
| `Basic.VarintShortest` | src/cuda/tile/_bytecode/basic.py:37-42 | no other encoding of the number is shorter |
| `Basic.EncodeSignedVarint` | src/cuda/tile/_bytecode/basic.py:45-49 | writes the zigzag number |
| `Basic.ZigZagBijective` | src/cuda/tile/_bytecode/basic.py:45-49 | zigzag numbers all integers, each once |
| `Basic.EncodeIntList` | src/cuda/tile/_bytecode/basic.py:52-55 | fails exactly if a number does not fit its width |
| `Basic.IntListRoundTrip` | src/cuda/tile/_bytecode/basic.py:52-55 | the list is read back, negative numbers included |
| `Basic.EncodeVarintList` | src/cuda/tile/_bytecode/basic.py:58-61 | writes count and numbers |
| `Basic.VarintListRoundTrip` | src/cuda/tile/_bytecode/basic.py:58-61 | the list is read back |
| `Basic.Table.Lookup` | src/cuda/tile/_bytecode/basic.py:13-22 | a string asked for the first time gets the next identifier, otherwise its own |
| `Basic.AnswerIsFinal` | src/cuda/tile/_bytecode/basic.py:13-22 | an identifier once given names its string in every later table |
| `Basic.AnswersAreInjectiveAndDense` | src/cuda/tile/_bytecode/basic.py:13-22 | equal identifiers are given exactly to equal strings, and none is left out |
| `CodeBuilding.CodeBuilder.NewOp` | src/cuda/tile/_bytecode/code_builder.py:69-79 | one attribute, one operation, and the next value numbers |
| `CodeBuilding.CodeBuilder.NewOpWithNestedBlocks` | src/cuda/tile/_bytecode/code_builder.py:81-87 | one attribute, one operation, the block count |
| `CodeBuilding.NestedBlockBuilder.BeginBlock` | src/cuda/tile/_bytecode/code_builder.py:31-44 | block header written, operations go to a new buffer, arguments numbered on from the outer values |
| `CodeBuilding.NestedBlockBuilder.EndBlock` | src/cuda/tile/_bytecode/code_builder.py:45-51 | operation count and bytes follow the header, and numbering and counts are restored |
| `CodeBuilding.NestedBlockBuilder.Restore` | src/cuda/tile/_bytecode/code_builder.py:48-51 | the same restoration when the body fails |
| `CodeBuilding.NestedBlockBuilder.Done` | src/cuda/tile/_bytecode/code_builder.py:53-55 | the results are numbered after all blocks |
| `CodeBuilding.EmitOps` | src/cuda/tile/_bytecode/code_builder.py:22-93 | emitting a tree of operations writes its bytes and attributes and returns its value numbers |
| `CodeBuilding.OpsDecode` | src/cuda/tile/_bytecode/code_builder.py:22-93 | a reader that numbers in reading order rebuilds tree, values and attributes; block counts are the numbers of direct operations |
| `CodeBuilding.BodyDecodes` | src/cuda/tile/_bytecode/code_builder.py:22-93 | the same for a whole function body, which has no count |
| `CodeBuilding.OpsScopes` | src/cuda/tile/_bytecode/code_builder.py:31-93 | values in scope at once have different numbers |
| `CodeBuilding.OneAttrPerOp` | src/cuda/tile/_bytecode/code_builder.py:69-87 | there are as many debug attributes as operations at all depths |
| `Container.SectionsRoundTrip` | src/cuda/tile/_bytecode/writer.py:161-171 | a reader finds every section where it was put |
| `Container.PlacesAligned` | src/cuda/tile/_bytecode/writer.py:157-171 | every section's body starts at a multiple of its alignment in the file |
| `Container.TableRoundTrip` | src/cuda/tile/_bytecode/writer.py:207-225 | every table entry is read back at its number |
| `Container.OffsetsThere` | src/cuda/tile/_bytecode/writer.py:207-220 | the offset array begins at the position the alignment theorems speak about |
| `Container.OffsetsAligned` | src/cuda/tile/_bytecode/writer.py:212-220 | in a section that starts aligned, the offsets are aligned in the file, not only in the section |
| `Container.DebugRoundTrip` | src/cuda/tile/_bytecode/writer.py:182-205 | index, attribute numbers and attribute table are read back; an empty table has one unused entry |
| `Bytecode.FunctionsRoundTrip` | src/cuda/tile/_bytecode/writer.py:84-106 | every function record is read back |
| `Bytecode.GlobalsRoundTrip` | src/cuda/tile/_bytecode/writer.py:33-46 | every global is read back, before version 13.3 without visibility and constness |
| `Bytecode.FileRoundTrip` | src/cuda/tile/_bytecode/writer.py:109-225 | reading a file gives every function, global, constant, type, string and debug attribute at its number |
| `Bytecode.TablesAlignedInFile` | src/cuda/tile/_bytecode/writer.py:120-132 | each table's offset array is aligned at its position in the file |
| `Bytecode.DebugAlignedInFile` | src/cuda/tile/_bytecode/writer.py:182-205 | so are the three arrays of the debug section |
| `Bytecode.DebugArraysThere` | src/cuda/tile/_bytecode/writer.py:182-205 | those arrays begin at the positions that are claimed aligned |
| `Writer.PadTo` | src/cuda/tile/_bytecode/writer.py:157-158 | pads to the next multiple of the alignment |
| `Writer.WriteTable` | src/cuda/tile/_bytecode/writer.py:207-225 | writes the specified table; an error exactly if an offset does not fit |
| `Writer.WriteDebugInfo` | src/cuda/tile/_bytecode/writer.py:182-205 | writes the specified section; an error exactly if a number does not fit |
| `Writer.WriteSection` | src/cuda/tile/_bytecode/writer.py:161-171 | writes header, padding and body |
| `Writer.ConstantsInjective` | src/cuda/tile/_bytecode/writer.py:41 | different constants are different table entries |
| `Writer.FunctionTypesInjective` | src/cuda/tile/_bytecode/writer.py:95 | different signatures are different types |
| `Writer.GlobalSection.DefineGlobal` | src/cuda/tile/_bytecode/writer.py:33-46 | a new name adds one record whose numbers name its string and data; a second global of a name is an error that changes nothing |
| `Writer.BytecodeWriter.WriteFunction` | src/cuda/tile/_bytecode/writer.py:80-106 | one record, whose numbers name its name and signature, with the hints of an entry point, the emitted body and its own list of debug attributes; the string table gets the name and the names of the hints, in order |
| `Writer.WriteBytecode` | src/cuda/tile/_bytecode/writer.py:109-136 | succeeds exactly if all announced functions were written and all numbers fit; then a reader gets everything back |
| `Writer.WrittenIsRead` | src/cuda/tile/_bytecode/writer.py:84-225 | in the file read back, every function's body decodes, with its own entry of the debug section, to the operations, values and attributes that were emitted |
| `Writer.WrittenHintsAreRead` | src/cuda/tile/_bytecode/writer.py:92-97 | in the file read back, an entry point's hints are found by name in the file's own strings, modulo 2^32, as integers of the type that the file's table has for 32 bits |
| `Writer.PredefinedTypes` | src/cuda/tile/_bytecode/type.py:49-53 | one-bit and 32-bit integers are types 0 and 1: the registration check cannot fail |
| `Hints.EncodeHints` | src/cuda/tile/_bytecode/attribute.py:43-82 | writes the tagged dictionary of dictionaries, interning architectures and names in order |
| `Hints.OptimizationRoundTrip` | src/cuda/tile/_bytecode/attribute.py:43-62 | its records are read back, whatever follows |
| `Hints.HintsAreRead` | src/cuda/tile/_bytecode/attribute.py:65-82 | with the string table, however much it has grown, a reader finds each architecture's hints modulo 2^32, present or missing |
| `LayerNorm.StepRight` | samples/LayerNorm.py:121-133 | every step of every block (compare-and-swap, loads, stores, release) keeps lock, cells and partial sums right |
| `LayerNorm.MutualExclusion` | samples/LayerNorm.py:124-133 | in every interleaving of any number of blocks, two blocks of a group are never inside together |
| `LayerNorm.NoLostUpdate` | samples/LayerNorm.py:115-133 | when all blocks are done, each cell is the sum of its group's contributions |
| `LayerNorm.SomeBlockMoves` | samples/LayerNorm.py:124-133 | unless all are done, some block's step changes something: no deadlock |
| `LayerNorm.StepCounts` | samples/LayerNorm.py:115-133 | every step that changes something brings the end one step nearer |
| `LayerNorm.EveryRunCanFinish` | samples/LayerNorm.py:115-133 | every run can be continued until all blocks are done |
| `LayerNorm.FinalReduction` | samples/LayerNorm.py:149-162 | tile after tile, then row after row, adds up a column |
| `LayerNorm.FinalSums` | samples/LayerNorm.py:107-162 | after any finished run, the second kernel's result is the sum over all rows, in any commutative monoid |
| `Swizzle.TileThenNumber` | samples/MatMul.py:14-24 | block numbers have tiles in the grid, and the number can be told from the tile |
| `Swizzle.NumberThenTile` | samples/MatMul.py:14-24 | every tile has a block number, also in a short last group |
| `Swizzle.TilesDiffer` | samples/MatMul.py:14-24 | two block numbers never share a tile |
| `Swizzle.Swizzle2D` | samples/MatMul.py:14-24 | the program's steps compute that bijection |
| `Swizzle.OneOwner` | samples/MatMul.py:148-154 | every tile belongs to exactly one persistent block |
| `Swizzle.PersistentBlock` | samples/MatMul.py:148-176 | a block writes its own tiles, each once, and no others |
| `Swizzle.StepRight` | samples/MatMul.py:148-176 | every atomic step of every block (a product, or a store) keeps all tiles right and changes none that is written |
| `Swizzle.StoreRight` | samples/MatMul.py:175-176 | a store writes one tile that no block has written, with all of its products |
| `Swizzle.PersistentProduct` | samples/MatMul.py:143-176 | in every interleaving of any number of blocks, once all are done exactly the tiles of the product are written, each with its value |
| `Swizzle.NoWaiting` | samples/MatMul.py:148-176 | a block is done after so many turns of its own, whatever the others do |
| `Swizzle.FairRunWritesProduct` | samples/MatMul.py:143-176 | a schedule that gives every block its turns, in any order, writes the whole product |
| `MoE.StableIsSorted` | samples/MoE.py:140 | a stable argsort of expert ids is unique |
| `MoE.SortedIsStable` | samples/MoE.py:140 | there is one: expert after expert, positions in order |
| `MoE.BinCount` | samples/MoE.py:144 | how often each expert was chosen |
| `MoE.Align` | samples/MoE.py:133-174 | the loop fills both arrays as specified, never out of range |
| `MoE.AlignedProperly` | samples/MoE.py:133-174 | every token has exactly one slot, all others hold the sentinel, block owners are in order |
| `MoE.SlotOwner` | samples/MoE.py:157-172 | a real slot's expert is the owner of its block |
| `MoE.LittleWaste` | samples/MoE.py:145-153 | an expert wastes fewer than one tile, at its end |
| `MoE.ComputeNextPowerOf2` | samples/MoE.py:396-406 | the six shifts, and exactly when they find the next power of two |
| `MoE.NextPowerExactly` | samples/MoE.py:396-406 | the result is the smallest power of two not below n if and only if n is positive and n - 1 has no run of 64 zero bits below its top bit |
| `MoE.SixtyFourBitsEnough` | samples/MoE.py:396-406 | so for all n from 1 to 2^64 |
| `MoE.NotAlwaysNextPower` | samples/MoE.py:396-406 | and neither for 0 nor for 2^64 + 1 |
| `IpcPayload.SerializePayload` | cext/ipc_util.cpp:87-118 | writes the fields of a payload in order |
| `IpcPayload.PrefixFree` | cext/ipc_util.cpp:17-118 | no payload's bytes begin another payload's |
| `IpcPayload.IpcPayloadReader.Read` | cext/ipc_util.cpp:48-57 | the next number, or an error only if the bytes are no payload's |
| `IpcPayload.IpcPayloadReader.ReadRecords` | cext/ipc_util.cpp:59-77 | the next records, checked against overflow and truncation |
| `IpcPayload.DeserializePayload` | cext/ipc_util.cpp:120-165 | accepts exactly the bytes of payloads, and returns the payload |
| `IpcPayload.PrefixesAndExtensionsRejected` | cext/ipc_util.cpp:43-84 | a payload cut short, or with more after it, is no payload |
| `IpcHandles.IpcHandleExporter.GetIpcPointer` | cext/ipc_util.h:76-108 | succeeds exactly if the pointer is not null and lies in an allocation that has a handle; the handles then grow by that of the pointer's allocation unless it is there; an error says why, and adds none |
| `IpcHandles.ExportPointers` | cext/tile_kernel.cpp:3410-3439 | the first pointer that cannot be shared decides between no payload and the error; otherwise every array pointer becomes a handle and an offset, and the handles are those of the pointers' allocations, each once |
| `IpcHandles.SharedExactly` | cext/tile_kernel.cpp:3410-3439 | all pointers are shared exactly if the device supports it and each one is capable and has a handle |
| `IpcHandles.PatchRoundTrip` | cext/ipc_util.h:20-28 | a patch survives the payload |
| `IpcHandles.OpenHandles` | cext/ipc_util.h:122-136 | all allocations are mapped, unless the driver refuses one |
| `IpcHandles.ApplyPatches` | cext/tile_kernel.cpp:3526-3541 | writes all pointers exactly if every patch is in range |
| `IpcHandles.PointersRebuilt` | cext/tile_kernel.cpp:3419-3541 | every array pointer becomes the mapped base of its own allocation plus its offset, and nothing else changes |
| `IpcHandles.Transfer` | cext/tile_kernel.cpp:3410-3541 | from exporting in one process to patching in the other: when the payload is sent, when it is received, and that then every pointer is rebuilt and no other word changed |

## Findings

Where the code does not do what its comments or names promise, the model follows the code:

- **A static axis out of range aborts.** A comment at cext/tile_kernel.cpp:980 says that
  extraction has checked the axes; it does so only from the second array of a list on, and
  `normalize_dim` would raise a proper error. For a single array, or a list of one, the check at
  cext/tile_kernel.cpp:900 ends the process. `ArgumentConstants.AbortsExactly` gives the exact
  condition, `ArgumentConstants.AxisOutOfRangeAborts` and `WideArrayAborts` inputs.
- **A signature claims that strides are not negative**, and nothing checks it. For the CUDA array
  interface, nothing checks either that sizes and strides fit the index type.
  `Signature.LeafClaimsExactly` says that the claims about an array hold exactly if it meets these
  two conditions, `Signature.NegativeStrideLaunched` and `WideArrayLaunched` give inputs.
- **A signature claims that no two parameters share memory**, and nothing checks that.
  `Aliasing.SignatureHoldsExactly` adds the condition; for row-major arrays,
  `Aliasing.RowMajorShareExactly` says it in terms of their ranges of bytes.
  `Aliasing.ArrayTwiceLaunched` gives an input.
- **Computed strides wrap around** before they are compared with the range of 32-bit indices.
  `ArraySpec.TestRightExactly` says when the comparison is right all the same,
  `ArraySpec.WrappedStrideAccepted` gives an input.
- **Strides in bytes are cut off** if they are no multiples of the element's width, and exactly
  then (`ArrayReaders.ByteStridesKept`); `ArrayReaders.ByteStrideCut` gives an input.
- **`next_power_of_2` is not always the next power of two.** It returns 0 for 0, and misses
  numbers above 2^64 with a run of 64 zero bits in n - 1. `MoE.NextPowerExactly` gives the exact
  condition, `MoE.NotAlwaysNextPower` two inputs, and `MoE.SixtyFourBitsEnough` the range in
  which it is right.
- **A missing host program** is accepted as one constant zero whatever number of results is
  expected. `HostProgram.ResultsExactly` says that an accepted program leaves the expected number
  exactly if it was given or that number is one, `HostProgram.MissingProgramLeavesOne` gives an
  input.
- **NaN payloads** come back exactly if the quiet bit is set or the payload is 1, or all ones is
  the only NaN (`FloatEncoding.NanRoundTripExactly`); other signalling payloads become 1, by
  design. `FloatEncoding.PayloadLost` gives an input.
- **An infinity** becomes NaN where all ones is the only special pattern, and the largest number
  where there is none. `FloatEncoding.InfinityKeptExactly` says that it is kept exactly in IEEE
  formats, `FloatEncoding.InfinityLost` gives an input.

## Left out

Contracts that say less than the source:

- ArraySpec.ComputeSpecializationBits: products of strides, sizes and element widths are unbounded integers; their overflow as signed 64-bit numbers, which C++ leaves undefined, is not modelled. With 32-bit indices there is none (`ArrayReaders.NoOverflowIn32Bits`).
- Writer.BytecodeWriter.EndFunction: the list of debug attributes that the code builder shares with the writer is copied back when the function ends, so the sharing before that is not modelled.
- OpenAddressing.HashMap.Find: one key type; looking up keys of another type that compares equal is not modelled, nor are destructors.
- StreamBuffer.StreamBufferPool.Close: moving and assigning transaction objects, and their destructors, are not modelled.
- ArrayReaders.ReadArray: how data types are read, and that a capsule is on a CUDA device, is not modelled; a tuple of byte strides is at least as long as the shape, which the program does not check.
- Aliasing.SignatureHoldsExactly: the storage of a list argument, which the launch itself allocates, is not one of the memories that are compared.
- Coroutine.RunCoroutine: coroutines are trees of what they do when resumed; one coroutine object awaited from two places is not modelled, nor are values that are no coroutines.
- LayerNorm.StepRight: acquire and release give interleaving semantics inside the critical section; the gradients themselves, the contributions and DX are parameters or left out.
- IpcHandles.ExportPointers: what the driver answers about devices, pointers, ranges and handles does not change while pointers are exported.
- FloatEncoding.EncodesNearest: doubles are exact numbers and `ldexp` is exact, which holds for all listed formats; 64-bit floats are passed through by the program and left out.

Not modelled:

- the CUDA driver beyond events, streams, allocation that may fail and memory that is used or not; the Python C-API, reference counts and locks of the interpreter
- dlpack.h is not part of this model
- compilation, kernel families, calling conventions, hoisted tensor maps, launch attributes and benchmarks
- rounding and data types in the sample kernels: rings, reals and an abstract `exp2` are used; the FFT is one row, without grid and batch tiling
- op attributes other than opcode, result types, operands, blocks and debug attribute in the code builder
- SQLite cache, dtype promotion tables, compiler options, XLA registry, documentation and scripts
