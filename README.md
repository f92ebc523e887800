# memtest buffer pool and typed containers, in Dafny

This project models the memory core of `mem01`:

- **The buffer pool** (`ContainerFactory`). It keeps one table of free lists per real memory location (host, GPU, both). Each table maps an exact byte count to a FIFO queue of `(pointer, timestamp)` pairs. The pool also keeps a ring of 16 execution streams with an index.
- **The typed buffer handle** (`Container<T>`). It leases `numel * sizeof(T)` bytes from the pool when it is constructed and fills them from a vector, a pointer range or another container. When destroyed, it hands the bytes back immediately, defers the return to a stream callback, or keeps them, depending on the build and the stream's status.
- **The helpers the core uses:**
  - the data-type tag parser and printer;
  - `stringify` of a `vector<bool>`;
  - the two hex dumps `printHex` and `printHexWithAddress`;
  - the runtime status check `cudaSafeCall2`;
  - the saturating integer cast `clampCast`.

Modules, one per source file:

| module | file | source |
|---|---|---|
| `Optional` | `optional.dfy` | the optional value used for null pointers and unset results |
| `CudaUtility` | `cuda_utility.dfy` | `mem01/src/utilities/cudaUtility.h` |
| `DataTypes` | `data_type.dfy` | `mem01/src/utilities/DataType.cpp` |
| `Utility` | `utility.dfy` | `mem01/src/utilities/utility.cpp` |
| `ContainerFactoryModel` | `container_factory.dfy` | `mem01/src/memory/ContainerFactory.h` |
| `ContainerModel` | `container.dfy` | `mem01/src/memory/Container.h` |

The process-wide static state of the pool is one `ContainerFactory` object, which every container holds. The `HAVE_CUDA` switch is the object's `build` field: `Accelerated` or `HostOnly`.

A ghost ledger, `owner`, records each pointer the pool has handed out or holds. A pointer is *leased* to a container, *pooled* in a free list, or *pending* on a stream callback. The pool's invariant `Valid()` ties the free lists to the ledger in both directions, and four guarantees follow:
- A pointer is never in two free lists, or twice in one.
- A pointer the ledger calls pooled is in a free list, so a returned buffer is never lost.
- A leased or pending pointer is never handed out.
- A buffer is returned only once, and only under the byte count and location it was leased with.

The header `ContainerFactory.h` only declares the pool's operations. Each is therefore modelled by the least its declaration and state imply:
- `acquireMemory` takes the front of the exact-size queue, or else a fresh address.
- `returnMemory` appends to the back of that queue.
- `freeBuffers` pops queue fronts in the location's table until enough bytes are freed. Which queue goes first is left open.
- `freeOldBuffers` drops every entry whose age exceeds 5 s.
- `getNextStream` hands out the current stream and advances the index modulo 16.

`acquireMemory` pops the oldest entry, as the declared `tbb::concurrent_queue` does.

The destructor follows the code. On a stream error other than "not ready" or "unloading", it only logs; the buffer is not returned (`Container.h:132-134`).

## Model

| member | source | states |
|---|---|---|
| `CudaUtility.CudaSafeCall2` | mem01/src/utilities/cudaUtility.h:66-80 | returns true iff the status is success; a failure, and only a failure, produces a report carrying the status, file, line and function |
| `CudaUtility.CudaSafeCall2Named` | mem01/src/utilities/cudaUtility.h:82-99 | as above, with the report also naming the container when a name is given |
| `CudaUtility.IntType.Cast` | mem01/src/utilities/cudaUtility.h:172-175 | `static_cast` to a fixed-width type lands in the type's range, differs from the input by a multiple of 2^width, and leaves representable values alone |
| `CudaUtility.ClampCast` | mem01/src/utilities/cudaUtility.h:160-175 | for every integer input type, the result lies within the limits: [-32767, 32767] for `int16_t`, [0, 255] for `uint8_t` |
| `CudaUtility.ClampCastSaturates` | mem01/src/utilities/cudaUtility.h:160-175 | for an input type that holds the limits, the result is within [-32767, 32767] or [0, 255]: identity inside, the nearer limit outside |
| `CudaUtility.ClampCastIdempotent` | mem01/src/utilities/cudaUtility.h:172-175 | for every input type, clamping the clamped value again changes nothing |
| `CudaUtility.ClampCastMonotone` | mem01/src/utilities/cudaUtility.h:172-175 | for every input type, the clamp is monotone non-decreasing |
| `CudaUtility.ClampCastNarrowInput` | mem01/src/utilities/cudaUtility.h:172-175 | with an input type too narrow for the limits, the limits wrap: `clampCast<uint8_t>` of the `int8_t` values 0 and -5 is 255, and `clampCast<int16_t>` of the `uint8_t` 0 is 1 |
| `CudaUtility.ClampCastUnsignedToInt16` | mem01/src/utilities/cudaUtility.h:172-175 | for every unsigned input type of 16 bits or more, `clampCast<int16_t>` is the constant 32767: the wrapped lower limit lies above the upper one |
| `CudaUtility.ClampCastWide` | mem01/src/utilities/cudaUtility.h:160-175 | the intended clamp, compared in a type wide enough for both limits: in range, identity inside, nearer limit outside |
| `CudaUtility.ClampCastAgreesWhenWide` | mem01/src/utilities/cudaUtility.h:172-175 | whenever the input type holds both limits, the source's clamp equals the intended one |
| `CudaUtility.ClampCaster.Apply` | mem01/src/utilities/cudaUtility.h:177-179 | `clampCaster::operator()` equals `clampCast` at every argument and stays within the limits |
| `DataTypes.DataTypeGet` | mem01/src/utilities/DataType.cpp:16-74 | every listed element type has a listed tag, never `TypeUnknown` |
| `DataTypes.DataTypeGetInjective` | mem01/src/utilities/DataType.cpp:16-74 | distinct element types get distinct tags |
| `DataTypes.Store` | mem01/src/utilities/DataType.cpp:116-118 | the success flag is written only through a non-null pointer, and then holds the outcome |
| `DataTypes.DataTypeFromString` | mem01/src/utilities/DataType.cpp:76-120 | success is reported iff a tag was recognised, and a recognised string is one of that tag's spellings |
| `DataTypes.ParseTagSound` | mem01/src/utilities/DataType.cpp:79-115 | whatever the parser recognises is a spelling of the tag it returns |
| `DataTypes.ParseTagExact` | mem01/src/utilities/DataType.cpp:79-115 | the parser returns a tag iff the string is one of that tag's accepted spellings; every other string fails |
| `DataTypes.DataTypeToString` | mem01/src/utilities/DataType.cpp:122-182 | success iff the tag is listed; an unlisted tag prints as the empty string; a listed tag other than `TypeDataType` prints one of its spellings |
| `DataTypes.RoundTrip` | mem01/src/utilities/DataType.cpp:76-182 | for every listed tag except `TypeDataType`, printing then parsing gives the tag back, with success both times |
| `DataTypes.DataTypeTagDoesNotRoundTrip` | mem01/src/utilities/DataType.cpp:109-110 | `TypeDataType` prints as "DataType", which does not parse; only "dataType" does |
| `DataTypes.IntegerAliases` | mem01/src/utilities/DataType.cpp:81-96 | each integer tag parses from its short and its `_t` spelling; the printer emits the `_t` one |
| `DataTypes.WriteDataType` | mem01/src/utilities/DataType.cpp:184-195 | `operator<<` appends the name iff the stream was good and the tag converts; otherwise it sets failbit and writes nothing |
| `DataTypes.ReadDataType` | mem01/src/utilities/DataType.cpp:197-207 | `operator>>` on a good stream yields what the parser makes of the extracted word, sets failbit iff that parse failed, and leaves unread what `is >> s` left; a failed stream is returned as it was, with no tag |
| `DataTypes.ReadDataTypeAccepts` | mem01/src/utilities/DataType.cpp:197-207 | on a good stream, `operator>>` yields tag `t` iff the extracted word is one of `t`'s accepted spellings |
| `DataTypes.SplitToken` | mem01/src/utilities/DataType.cpp:197-199 | `is >> s` splits off a whitespace-free word that ends at whitespace or at the end of input |
| `DataTypes.SkipSpace` | mem01/src/utilities/DataType.cpp:198-199 | `is >> s` first skips leading white space: what remains is a suffix of the input that does not start with white space, and everything skipped was white space |
| `DataTypes.ExtractWord` | mem01/src/utilities/DataType.cpp:198-199 | `is >> s` on a good stream: the input is white space, then the whitespace-free word, then the unread rest, which is empty or starts with white space; the stream fails iff it had failed already or held nothing but white space, and a failed stream is left as it was |
| `DataTypes.StreamRoundTrip` | mem01/src/utilities/DataType.cpp:184-207 | writing a listed tag (except `TypeDataType`) and reading it back, after any leading white space and followed by white space or nothing, gives the tag and leaves the rest unread |
| `Utility.Digits` | mem01/src/utilities/utility.cpp:75-77 | the loop appends one digit per element, '1' for true and '0' for false |
| `Utility.StringifyAsWritten` | mem01/src/utilities/utility.cpp:71-84 | "[]" for the empty vector; otherwise `|v| + 1` characters, bracketed, holding the digits of all elements but the last |
| `Utility.Stringify` | mem01/src/utilities/utility.cpp:71-84 | the appending loop followed by the one-character erase computes exactly that text |
| `Utility.StringifyLosesLastBit` | mem01/src/utilities/utility.cpp:78 | flipping the last element leaves the text unchanged: `[true]` and `[false]` both print "[]" |
| `Utility.StringifyBitsRoundTrip` | mem01/src/utilities/utility.cpp:71-84 | with every digit kept, parsing the text gives the vector back |
| `Utility.ToUnsigned` | mem01/src/utilities/utility.cpp:110 | the `(uint8_t)` cast of a signed `char` adds 256 to negative values |
| `Utility.Hex2` | mem01/src/utilities/utility.cpp:110 | `%02x` of a byte is two lowercase hex digits that read back as the byte |
| `Utility.HexDigits` | mem01/src/utilities/utility.cpp:132 | `%x` is at least one lowercase hex digit, has no leading zero unless it is the single digit 0, and reads back as the value |
| `Utility.HexDigitsOfWord` | mem01/src/utilities/utility.cpp:132 | a 32-bit value never needs more than eight hex digits |
| `Utility.Hex06` | mem01/src/utilities/utility.cpp:132 | `%06x` is zero-padded to at least six digits and reads back as the value |
| `Utility.WriteAt` | mem01/src/utilities/utility.cpp:110-113 | `sprintf(str + ret, …)` writes the text and a terminator at `ret`, returns the new offset and leaves the rest of the buffer alone |
| `Utility.CString` | mem01/src/utilities/utility.cpp:117 | `result = str` takes exactly the characters before the first terminator |
| `Utility.HexCellValue` | mem01/src/utilities/utility.cpp:110 | each cell is two lowercase hex digits of the byte's unsigned value, then a space |
| `Utility.HexDumpLength` | mem01/src/utilities/utility.cpp:109-114 | the dump of `n` bytes is `3n + n/16` characters long |
| `Utility.HexDumpCell` | mem01/src/utilities/utility.cpp:108-109 | byte `i`'s cell sits at offset `3i + i/16` and holds the byte's `%02x ` text |
| `Utility.HexDumpRowBreak` | mem01/src/utilities/utility.cpp:108-112 | a newline follows the cell of every 16th byte, and the cell of any other byte that is not last is followed by the next cell, not a newline |
| `Utility.HexDumpFitsScratch` | mem01/src/utilities/utility.cpp:103-114 | for `buff_len >= 1` the dump plus terminator fits the `4 * buff_len` scratch buffer |
| `Utility.HexDumpZeroLength` | mem01/src/utilities/utility.cpp:103-117 | for `buff_len == 0` the zero-size scratch buffer holds no terminator, so the precondition of reading it back as a C string (`CString`) cannot hold |
| `Utility.PrintHex` | mem01/src/utilities/utility.cpp:101-120 | with a successful allocation and `buff_len >= 1`, the loop's running offset stays in the buffer and the result is the dump; otherwise the empty string |
| `Utility.RowPrefixAddress` | mem01/src/utilities/utility.cpp:131-133 | a row starts with its address `startAddr + i`, read as unsigned 32 bits, in hex padded to six digits, then four spaces; it is exactly ten characters below 0x1000000 |
| `Utility.AddressedDumpOverflowsScratch` | mem01/src/utilities/utility.cpp:124-137 | as written, a single byte already needs 14 characters, more than the `4 * length` scratch buffer holds |
| `Utility.AddressedDumpBound` | mem01/src/utilities/utility.cpp:129-137 | the addressed dump of `n` bytes is at most `3n + n/16 + 12` per started row |
| `Utility.AddressedDumpFits` | mem01/src/utilities/utility.cpp:124-137 | every partial dump plus terminator fits a scratch buffer of `4n + 12` characters per row |
| `Utility.WriteAddressedByte` | mem01/src/utilities/utility.cpp:130-136 | one iteration appends the row prefix at a row start, the byte's cell, and the newline at a row end |
| `Utility.PrintHexWithAddress` | mem01/src/utilities/utility.cpp:122-144 | with the enlarged scratch buffer, the running offset stays in bounds and the result is the addressed dump |
| `ContainerFactoryModel.PooledIffListed` | mem01/src/memory/ContainerFactory.h:42-43 | in a valid pool a pointer is pooled in the ledger iff some free list holds it, so a returned buffer is never lost from the pool |
| `ContainerFactoryModel.TablesIndexedByRealLocations` | mem01/src/memory/ContainerFactory.h:63-65 | in a valid pool every free list sits in a slot below `LocationINVALID` of `sm_bufferMaps`, and distinct locations use distinct slots |
| `ContainerFactoryModel.KeepRecent` | mem01/src/memory/ContainerFactory.h:55-59 | an entry survives the sweep iff it was in the free list and its age does not exceed 5 seconds |
| `ContainerFactoryModel.KeepRecentDistinct` | mem01/src/memory/ContainerFactory.h:59 | the sweep never makes a pointer appear twice in a free list |
| `ContainerFactoryModel.IndexAfterIsOffset` | mem01/src/memory/ContainerFactory.h:48-51 | after `k` calls the stream index is `(start + k) mod 16` |
| `ContainerFactoryModel.RoundRobinCoversRing` | mem01/src/memory/ContainerFactory.h:39 | sixteen consecutive calls to `getNextStream` hand out every stream of the ring exactly once |
| `ContainerFactoryModel.ContainerFactory.constructor` | mem01/src/memory/ContainerFactory.h:48-51 | the pool starts with empty tables, a ring of exactly 16 streams and the index at 0 |
| `ContainerFactoryModel.ContainerFactory.GetNextStream` | mem01/src/memory/ContainerFactory.h:39 | hands out the stream at the index and advances the index, staying below 16; nothing else changes |
| `ContainerFactoryModel.ContainerFactory.AcquireMemory` | mem01/src/memory/ContainerFactory.h:42 | pops the front of the free list with exactly that byte count in that location's table, or takes a fresh buffer; never hands out a leased or pending pointer; leases the pointer under that key |
| `ContainerFactoryModel.ContainerFactory.ReturnMemory` | mem01/src/memory/ContainerFactory.h:43 | accepts only a pointer leased under the same byte count and location, appends it with its timestamp to the back of exactly that free list, and so cannot take it twice |
| `ContainerFactoryModel.ContainerFactory.DeferRelease` | mem01/src/memory/Container.h:141-148 | the destructor's callback captures pointer, byte count and location; the pointer stays out of the free lists until it runs |
| `ContainerFactoryModel.ContainerFactory.FireDeferredRelease` | mem01/src/memory/Container.h:141-148 | a callback runs only after the earlier ones on its stream and returns exactly the captured buffer to the pool |
| `ContainerFactoryModel.ContainerFactory.FreeBuffers` | mem01/src/memory/ContainerFactory.h:58 | frees at least `numBytesMin` bytes or empties the location's table; frees only pooled buffers of that table, from the fronts of their queues, and reports their bytes |
| `ContainerFactoryModel.ContainerFactory.FreeFront` | mem01/src/memory/ContainerFactory.h:58-61 | one step of `freeBuffers`: frees the front of one free list of the location's table, adds its bytes to the total, and shrinks the ledger |
| `ContainerFactoryModel.ContainerFactory.PopFront` | mem01/src/memory/ContainerFactory.h:58-61 | takes exactly the front entry off one free list and drops that pointer, which the ledger held, from the ledger, as `freeMemory` gives it back to the system |
| `ContainerFactoryModel.FreedFromStep` | mem01/src/memory/ContainerFactory.h:58 | each popped entry adds its key's byte count to the freed total and shortens exactly that queue by one |
| `ContainerFactoryModel.ContainerFactory.FreeOldBuffers` | mem01/src/memory/ContainerFactory.h:55-59 | frees exactly the pooled entries older than the timeout, everywhere, and keeps the rest in their queues |
| `ContainerModel.VectorCopyPlanAsWritten` | mem01/src/memory/Container.h:62-79 | with the accelerator, the vector constructor records an event only for GPU or both locations but waits whenever asked |
| `ContainerModel.VectorCtorWaitsWithoutEvent` | mem01/src/memory/Container.h:62-76 | a host-located vector container in the accelerator build waits on an event it never created |
| `ContainerModel.VectorCopyPlan` | mem01/src/memory/Container.h:62-79 | the intended plan waits iff an event was recorded and waiting was asked for, and agrees with the code whenever an event exists |
| `ContainerModel.RangeCopyPlan` | mem01/src/memory/Container.h:85-94 | the range constructor, with the accelerator, always copies asynchronously and records an event; it waits iff asked |
| `ContainerModel.TransferCopyPlan` | mem01/src/memory/Container.h:99-125 | host to host is a plain copy with no event; every other pair, with the accelerator, copies asynchronously on the source's stream and records an event |
| `ContainerModel.DestructorDecision` | mem01/src/memory/Container.h:129-155 | return now iff there is no accelerator or the stream is idle; defer iff not ready; skip iff the runtime is unloading; log only on any other error |
| `ContainerModel.LoggedOnlyReportsFailure` | mem01/src/memory/Container.h:132-134 | a status that leads to logging is one the named check reports as a failure |
| `ContainerModel.StdCopy` | mem01/src/memory/Container.h:78 | `std::copy` puts the source at the front of the destination and leaves the rest alone |
| `ContainerModel.NameBytes` | mem01/src/memory/Container.h:52-53 | `strcpy` stores the name's characters followed by one terminator |
| `ContainerModel.NameCopyOverflows` | mem01/src/memory/Container.h:52-53 | as written, a name of 50 or more characters needs more bytes than the 50 of `m_name` |
| `ContainerModel.StoredName` | mem01/src/memory/Container.h:52-53 | the intended bounded copy: present iff a name was given, a prefix of it that fits `m_name` with its terminator, the whole name when short, 49 characters otherwise |
| `ContainerModel.SizeOf` | mem01/src/memory/Container.h:56 | `sizeof(T)` is positive and each fixed-width element type takes its width in bytes |
| `ContainerModel.NewFilled` | mem01/src/memory/Container.h:78 | new storage filled by `std::copy` holds exactly the copied data |
| `ContainerModel.Container.Sized` | mem01/src/memory/Container.h:41-57 | needs `numel > 0`; stores host when there is no accelerator; keeps the name bounded by `m_name`; leases exactly `numel * sizeof(T)` bytes at the stored location by the pool's rule |
| `ContainerModel.Container.FromVector` | mem01/src/memory/Container.h:59-80 | `size() == data.size()` and the buffer equals `data`; same lease as the size-only form; the event follows the intended plan |
| `ContainerModel.Container.FromRange` | mem01/src/memory/Container.h:82-95 | needs a non-empty range; `size() == dataEnd - dataBegin`, the buffer equals the range and the range is unchanged |
| `ContainerModel.Container.CopyFrom` | mem01/src/memory/Container.h:97-127 | same size, stream and contents as the source, a different buffer; the source stays valid and unchanged |
| `ContainerModel.Container.WaitCreationFinished` | mem01/src/memory/Container.h:186-194 | consumes a recorded creation event and changes nothing else |
| `ContainerModel.Container.Destroy` | mem01/src/memory/Container.h:129-155 | follows the decision table: returns exactly `numel * sizeof(T)` bytes at the container's location, now or through a stream callback, or leaves the pool untouched; the container's buffer, name, stream and creation event are left as they were |
| `ContainerModel.Container.Get` | mem01/src/memory/Container.h:157-158 | the buffer holds `size()` elements |
| `ContainerModel.Container.Size` | mem01/src/memory/Container.h:197 | the element count is positive and is the buffer's length |
| `ContainerModel.Container.Lease` | mem01/src/memory/Container.h:55-56 | the acquisition ending every constructor: the pool's rule picks a buffer that was fresh or pooled, never leased, and leases it under this container's key |
| `ContainerModel.Container.GetStream` | mem01/src/memory/Container.h:203 | the associated stream; the copying constructor inherits it from its source (`CopyFrom`), and `WaitCreationFinished` and `Destroy` keep it |
| `ContainerModel.Container.GetLocation` | mem01/src/memory/Container.h:202 | the location is a real one, and always the host without the accelerator |
| `ContainerModel.Container.GetType` | mem01/src/memory/Container.h:204 | the element type's tag: listed, never `TypeUnknown`, and it identifies the element type |
| `ContainerModel.LocationPredicatesExclusive` | mem01/src/memory/Container.h:199-202 | `isHost`, `isGPU` and `isBoth` each hold iff `getLocation` is that enumerator; exactly one holds |
| `ContainerModel.Container.GetCopyHostRaw` | mem01/src/memory/Container.h:160-177 | with the accelerator, a new host array holding the contents; without it, the null pointer |
| `ContainerModel.Container.CopyTo` | mem01/src/memory/Container.h:179-184 | with the accelerator, needs `maxSize >= size()` and copies the contents to the front of `dst`; without it, `dst` is untouched |
| `ContainerModel.ReuseScenario` | mem01/src/memory/Container.h:55-56 | starting from an empty free list for 4000 host bytes, 1000 `int32` elements on the host take exactly 4000 bytes; after destruction on an idle stream, the next such container gets the same pointer back, and only one fresh allocation happened |

## Left out

- Concurrency: the garbage-collection thread, the mutexes, and the TBB concurrent map and queue. The pool is modelled sequentially, with time as a `now` parameter.
- Runtime calls: `cudaMemcpyAsync`, events, `cudaStreamQuery`, `cudaStreamAddCallback` and `cudaStreamSynchronize`. A stream's status is an input to the destructor. A registered callback is an entry of the pool's `pending` list, which `FireDeferredRelease` runs. Copies are complete when issued, so asynchrony, and a transfer failing, are not modelled.
- `allocateMemory` and `freeMemory`: calls into the system or device allocator. Memory is unbounded: a fresh buffer is the next address, and freeing removes the pointer from the ledger. The allocation-failure path of `acquireMemory`, which evicts and retries, is therefore not modelled.
- Buffer contents while pooled: storage is modelled as one array per container, apart from the address the pool hands out, so a reused buffer's old bytes are not carried over.
- `ContainerModel.Container.FromVector`, `FromRange` and `CopyFrom` fill the new storage before the pool lease rather than after. The storage is not tied to the address, so the outcome is the same.
- `ContainerModel.Container.WaitCreationFinished`: models the guarded wait the source has commented out. As written, it synchronises whatever handle `m_creationEvent` holds. The finding below covers the one path that reaches it without an event.
- `ContainerModel.Container.CopyTo`: requires `dst` not to overlap the buffer, as `cudaMemcpy` does. Its `maxSize` assertion is a precondition.
- `ContainerFactoryModel.ContainerFactory.GetNextStream`: hands out the current stream, then advances. `ContainerFactory.h` only declares this operation; the model does the least the declaration implies, so a variant that advances first is not modelled.
- `ContainerFactoryModel.ContainerFactory.FreeBuffers`: the order in which free lists are chosen is left open. `ContainerFactory.h` only declares this operation; the model does the least the declaration implies.
- The friend-only access to `acquireMemory` and `returnMemory`: a C++ access rule with no Dafny counterpart. The ledger preconditions carry the discipline it protects instead.
- `ContainerBase`: a virtual base whose default `getType` reports `TypeUnknown`. Classes here have no virtual dispatch.
- `m_name` when no name is given (left uninitialised), and the log-message text of `cudaSafeCall2`.
- `Utility.PrintHex` and `Utility.PrintHexWithAddress`: a negative `int` length is not modelled, since the buffer is a sequence. The allocation outcome is a parameter.
- `ContainerModel.SizeOf`: the sizes of `bool`, the `DataType` enum and `std::string` depend on the ABI; the x86-64 values 1, 4 and 32 are used.
- `TypeHalf` (accelerator builds only), `LimitProxy<float>`, and floating-point conversion in `clampCast`.
- The rest of `utility.cpp`, and all of `CallFrequency.cpp`, `SingleThreadTimer.cpp` and `main.cpp`: clocks, files, processes, logging and startup.

## Findings

| source | as written | input that shows it | evidently intended | confidence | as-written member | corrected member |
|---|---|---|---|---|---|---|
| mem01/src/utilities/utility.cpp:124-137 | the scratch buffer has `4 * length` characters, but each row adds a 10-character address prefix | `length = 1`: 10 + 3 characters plus the terminator need 14 > 4, so `sprintf` writes past the allocation | a buffer that holds the prefixes too | high, not executed | `Utility.AddressedDumpOverflowsScratch` | `Utility.PrintHexWithAddress` |
| mem01/src/utilities/utility.cpp:103-117 | `buff_len = 0` allocates zero bytes, then `result = str` reads a terminator from them | `printHex(buff, 0)` | return the empty string | medium, not executed | `Utility.HexDumpZeroLength` | `Utility.PrintHex` |
| mem01/src/utilities/utility.cpp:73-80 | the `erase` after the loop drops the last element's digit instead of a separator | `{true}` and `{false}` both give "[]"; `{true, false}` gives "[1]" | one digit per element | high, not executed | `Utility.StringifyLosesLastBit` | `Utility.StringifyBitsRoundTrip` |
| mem01/src/memory/Container.h:62-76 | with the accelerator, the vector constructor at host location records no event but still waits on `m_creationEvent` | accelerator build, `LocationHost`, `waitFinished = true` | wait only on a recorded event | medium, not executed | `ContainerModel.VectorCtorWaitsWithoutEvent` | `ContainerModel.VectorCopyPlan` |
| mem01/src/utilities/cudaUtility.h:172-175 | the limits are cast to the input type before clamping, so they wrap when that type is too narrow | `clampCast<uint8_t>` of the `int8_t` values 0 or -5 gives 255; `clampCast<int16_t>` of any `uint16_t`, `uint32_t` or `uint64_t` gives 32767 | the result's limits, compared in a wide enough type | medium, not executed | `CudaUtility.ClampCastNarrowInput` | `CudaUtility.ClampCastWide` |
| mem01/src/memory/Container.h:52-53 | `strcpy(m_name, name)` copies into a 50-byte array without a bound | a name of 50 characters: 51 bytes are written | a copy bounded by the array, keeping the first 49 characters | medium, not executed | `ContainerModel.NameCopyOverflows` | `ContainerModel.StoredName` |
