# nntrainer core in Dafny

This project models three parts of nntrainer, the on-device neural network
training library, and proves properties of the model.

- **The swap device** (`nntrainer/tensor/swap_device.cpp`). It is a backing
  file that pages byte ranges of the tensor memory arena in and out of RAM.
  - `start` opens the file. In TRAIN mode it also truncates the file and makes
    it sparse.
  - `getBuffer` hands out a buffer for a file range. It is either a heap copy
    filled by `read`, or a page-aligned private mapping. In INFERENCE mode with
    `USE_MMAP`, it instead copies one persisted weight into the caller's memory.
  - `putBuffer` writes a buffer back unless `dealloc_only` is set, then forgets
    it.
  - `finish` releases everything and closes the file. In TRAIN mode it removes
    the file.

  The device is the class `SwapDevice.Device`. The file is a byte sequence,
  and the handed-out buffers are fresh Dafny arrays keyed in the `allocated`
  and `mapped` tables. The `USE_MMAP` build flag is a constant fixed when the
  device is built. `ByteFile` gives the POSIX reads and writes on the file as
  total functions.

- **The optimized V2 memory planner** (`nntrainer/tensor/optimized_v2_planner.h`).
  Given the size and validity interval of each memory request, it assigns
  every request an offset in one arena.
  - Requests are served in order of their validity start. Among equal starts,
    the later end goes first.
  - Regions whose validity has ended go back to a free list. The list is
    ordered by offset, and adjacent pieces are merged.
  - Later requests are served first-fit from that list. The arena grows only
    when no free piece fits.

  `PlanLayout` is proved to return exactly `Layout`, a functional statement
  of this algorithm: each request in processing order reclaims what has
  expired by its start, then takes the front of the first free piece that
  fits, or the arena's end. Requests alive at a common tick get disjoint
  regions, all inside an arena that ends where some region ends. Two worked
  examples are proved about `Layout`: the tie-break between equal starts and
  the reuse of two merged freed regions.

- **Typed properties** (the banana properties of
  `test/unittest/unittest_base_properties.cpp`). This part covers:
  - how `from_string` reads an int, string, bool, dimension or enum property,
    and a `std::vector` or `std::array` of them;
  - how the property's validator decides whether the value is stored;
  - how `to_string` writes it back;
  - how `loadProperties` distributes `key=value` entries over a tuple of
    properties.

  Round trips are proved in general: for every admissible single value,
  `from_string(to_string(v))` gives back `v`. For a vector or an array the
  round trip is proved when the list is non-empty and no printed element holds
  a ',' or begins or ends with a space. The concrete cases the unit tests
  pin down are proved in `BananaCases` from those general lemmas.

Files:
- `errors.dfy`: the exception kinds and the `Result`/`Outcome` wrappers.
- `byte_file.dfy`: the backing file.
- `swap_device.dfy`: the device.
- `planner.dfy`: the planner.
- `text.dfy`: splitting, joining, trimming and decimal numerals.
- `base_properties.dfy`: property values, parsing, printing and validators.
- `load_properties.dfy`: `loadProperties`.
- `banana_cases.dfy`: the unit tests' concrete cases.

The bodies of the property library (`nntrainer/utils/base_properties.cpp`,
`node_exporter.cpp`) are not part of this model. The text grammar below is
chosen to agree with the unit tests, which fix only examples:
- **int:** an optional `-` and decimal digits, within the 32-bit range. Out of
  range raises `out_of_range`.
- **bool:** exactly `true` or `false`.
- **dimension:** one to four positive decimal axes separated by `:`, padded in
  front with 1s.
- **enum:** a name compared ignoring case, printed with its canonical spelling.
- **list:** elements separated by `,`, each trimmed of surrounding spaces.
  Lists print with `,` and no spaces.
- **loadProperties entry:** all spaces are removed, and it must then hold
  exactly two non-empty runs of characters other than `=` (so `a==b` and
  `=a=b=` read as key `a` and value `b`). Keys match ignoring case.

## Model

| member | source | states |
|---|---|---|
| `SwapDevice.MapWindow` | nntrainer/tensor/swap_device.cpp:110-112 | the mapping starts on a page boundary no later than the offset, the cut-off part is less than a page, the window ends exactly at offset + size, and it is empty only for an empty, aligned range |
| `SwapDevice.SparseTailOffset` | nntrainer/tensor/swap_device.cpp:47 | `size - 1` in `size_t` seen as `off_t` is negative exactly when size is 0 or beyond the `off_t` range; otherwise it is `size - 1` |
| `SwapDevice.Device.Start` | nntrainer/tensor/swap_device.cpp:31-60 | an open device is left alone; a failed open is a runtime error; TRAIN truncates the file to a sparse file of `size` zero bytes (or to nothing when the seek to `size - 1` fails); other modes keep the file and record the mode; the buffer tables are untouched |
| `SwapDevice.Device.GetBuffer` | nntrainer/tensor/swap_device.cpp:62-147 | not started: runtime error and no change; mapped INFERENCE: weight `id` copied into `memoryPtr` (missing id is out_of_range, a failed map a runtime error), nothing recorded; mapped otherwise: a fresh buffer with the file window, recorded with its page-aligned window; copy path: a fresh buffer of `size` bytes, zeros when `allocOnly`, else the file bytes (seek failure for a negative offset, read failure on a short read), recorded in `allocated` only on success |
| `SwapDevice.Device.PutBuffer` | nntrainer/tensor/swap_device.cpp:149-214 | not started: runtime error; mapped path: empty table returns silently, unknown pointer is a runtime error, otherwise the buffer is written at its offset unless `deallocOnly` and its record removed; copy path: unknown pointer is `invalid_argument`, negative offset fails the seek, otherwise write-back unless `deallocOnly` and the record removed |
| `SwapDevice.Device.Finish` | nntrainer/tensor/swap_device.cpp:220-245 | a closed device (fd < 0) is left alone; otherwise both tables are cleared, fd becomes -1, and in TRAIN mode the file is removed |
| `SwapDevice.WriteBackRoundTrip` | nntrainer/tensor/swap_device.cpp:196-204 | a buffer filled with `data` and put back with write-back is what the next `getBuffer` of the same range returns |
| `SwapDevice.DeallocOnlyDiscards` | nntrainer/tensor/swap_device.cpp:194-207 | putting a buffer back with `deallocOnly` leaves the file unchanged, so the next `getBuffer` returns the old bytes |
| `ByteFile.Zeros` | nntrainer/tensor/swap_device.cpp:129 | `calloc` gives `n` bytes, all zero |
| `ByteFile.WriteAt` | nntrainer/tensor/swap_device.cpp:201 | after the write the range holds the data, other bytes are unchanged, a gap past the old end reads as zeros, and the file grows only to the end of the write |
| `ByteFile.ReadAt` | nntrainer/tensor/swap_device.cpp:138 | `read` returns the file bytes from the offset, and is short exactly when the range runs past the end |
| `ByteFile.Window` | nntrainer/tensor/swap_device.cpp:115-119 | a mapped window has exactly `size` bytes: the file's bytes, zeros past its end |
| `ByteFile.WindowInsideFile` | nntrainer/tensor/swap_device.cpp:115-119 | inside the file, the mapped window and the read bytes are the same slice |
| `ByteFile.ReadAfterWrite` | nntrainer/tensor/swap_device.cpp:197-203 | reading or mapping a range just written returns the written bytes |
| `ByteFile.WriteBackOfUnchangedBytes` | nntrainer/tensor/swap_device.cpp:196-204 | writing back bytes equal to the file's own leaves the file as it was |
| `ByteFile.LastWriteWins` | nntrainer/tensor/swap_device.cpp:201 | a second write of the same range replaces the first |
| `ByteFile.DisjointWritesCommute` | nntrainer/tensor/swap_device.cpp:194-204 | write-backs of disjoint ranges give the same file in either order |
| `OptimizedV2Planner.PlanLayout` | nntrainer/tensor/optimized_v2_planner.h:16-65 | rejects exactly the inputs with a zero-size request or an empty interval; otherwise the plan is `Layout` (requests served in processing order, expired regions freed, first fit before growth), one offset per request, every region inside the arena, requests alive at a common tick get disjoint regions, and the arena ends where some region ends |
| `OptimizedV2Planner.PlaceAll` | nntrainer/tensor/optimized_v2_planner.h:16-26 | the offsets and arena size are those of `Layout`: requests served in processing order, expired regions freed before each, first fit before growth; overlapping requests get disjoint regions inside a tight arena |
| `OptimizedV2Planner.ProcessingOrder` | nntrainer/tensor/optimized_v2_planner.h:16-23 | the order is `OrderOf`: every request exactly once, by ascending start, by descending end among equal starts; keeping the input order among equal intervals is a choice of this model |
| `OptimizedV2Planner.InsertInOrder` | nntrainer/tensor/optimized_v2_planner.h:21-23 | inserting the next request after all that come no later keeps the order a sorted, stable permutation |
| `OptimizedV2Planner.Place` | nntrainer/tensor/optimized_v2_planner.h:25-26 | the result is the placement rule `Placed`: the request gets the first free piece that fits (its front) and the arena is unchanged, or, if none fits, the arena's end and the arena grows; the block is clear of every byte still in use and the free list stays well formed |
| `OptimizedV2Planner.Reclaim` | nntrainer/tensor/optimized_v2_planner.h:25-26 | the result is the reclaiming rule `ReclaimFrom`: regions whose validity has ended by the tick go back to the free list; exactly the others stay live, and live regions, free pieces and each other stay disjoint |
| `OptimizedV2Planner.TakeFrontIsFree` | nntrainer/tensor/optimized_v2_planner.h:25-26 | serving from the front of a free piece keeps the list well formed and removes the served bytes from it |
| `OptimizedV2Planner.InsertFreeKeepsFreeList` | nntrainer/tensor/optimized_v2_planner.h:25-26 | returning a region to the free list, merged with touching neighbours, keeps the list ascending, non-touching and inside the arena |
| `OptimizedV2Planner.InsertFreeAvoids` | nntrainer/tensor/optimized_v2_planner.h:25-26 | freeing a region disjoint from a live one never makes the live one free |
| `OptimizedV2Planner.FreeBlock` | nntrainer/tensor/optimized_v2_planner.h:25-26 | freeing an expired region keeps every region still held clear of the free list |
| `OptimizedV2Planner.PlaceInOrder` | nntrainer/tensor/optimized_v2_planner.h:16-26 | the final state is the reference `Run` over the whole order, and the planning invariant holds for all requests |
| `OptimizedV2Planner.PlaceNext` | nntrainer/tensor/optimized_v2_planner.h:25-26 | one reclaim-then-place step is the reference `Step` and extends the planning invariant by one request |
| `OptimizedV2Planner.InsertPos` | nntrainer/tensor/optimized_v2_planner.h:16-23 | the insertion point follows every request that comes no later and precedes the first that comes later |
| `OptimizedV2Planner.OrderOf` | nntrainer/tensor/optimized_v2_planner.h:16-23 | the order of the first `n` requests lists `n` indices below `n` |
| `OptimizedV2Planner.OrderOfSorted` | nntrainer/tensor/optimized_v2_planner.h:16-23 | the order of the first `n` requests holds each exactly once, by ascending start, by descending end among equal starts, and keeps input order among equal intervals |
| `OptimizedV2Planner.FitIndex` | nntrainer/tensor/optimized_v2_planner.h:25-26 | the first free piece large enough, or none when every piece is too small |
| `OptimizedV2Planner.Placed` | nntrainer/tensor/optimized_v2_planner.h:25-26 | either the front of the first fitting piece with the arena unchanged, or the arena's end with growth by the size when no piece fits |
| `OptimizedV2Planner.Step` | nntrainer/tensor/optimized_v2_planner.h:16-26 | one request's step changes only its own offset, makes it live and never shrinks the arena |
| `OptimizedV2Planner.TieBreakExample` | nntrainer/tensor/optimized_v2_planner.h:21-23 | of two size-10 requests starting at 0, the one ending at 5 gets offset 0 and the one ending at 3 offset 10, in either input order |
| `OptimizedV2Planner.ReuseExample` | nntrainer/tensor/optimized_v2_planner.h:25-26 | requests of 100 on [0,3), 50 on [1,2) and 80 on [3,5) get offsets 0, 100 and 0 in an arena of 150 |
| `OptimizedV2Planner.PlannedAll` | nntrainer/tensor/optimized_v2_planner.h:16-26 | once every request is placed, the invariant gives the planner's three guarantees for all pairs of requests |
| `Text.SplitOfJoin` | test/unittest/unittest_base_properties.cpp:294-301 | splitting a list joined with a separator none of its parts contains gives the parts back |
| `Text.Split` | test/unittest/unittest_base_properties.cpp:294-301 | the pieces are at least one, free of the separator, and join back to the text |
| `Text.TrimOfTrimmed` | test/unittest/unittest_base_properties.cpp:294-301 | trimming a word without spaces at its ends leaves it unchanged |
| `Text.ParseNatToString` | test/unittest/unittest_base_properties.cpp:182-187 | a decimal numeral reads back as the number it was printed from |
| `Text.NatToStringOfParse` | test/unittest/unittest_base_properties.cpp:182-187 | a canonical numeral is the text of the number it reads as |
| `BaseProperties.DefaultIsAdmissible` | test/unittest/unittest_base_properties.cpp:39-69 | exactly `NumBanana` (1) and `MarkAsGoodBanana` (true) have defaults, and each passes its validator |
| `BaseProperties.Int32` | test/unittest/unittest_base_properties.cpp:37 | a number in the `int` range is kept, any other is `out_of_range` |
| `BaseProperties.ParseIntOfIntToString` | test/unittest/unittest_base_properties.cpp:173-187 | every 32-bit int reads back from its decimal text |
| `BaseProperties.IntToStringOfParseInt` | test/unittest/unittest_base_properties.cpp:182-187 | a canonical numeral that reads as an int is that int's text |
| `BaseProperties.MakeDim` | test/unittest/unittest_base_properties.cpp:386-399 | one to four positive axes make a dimension, padded in front with 1s; anything else is `invalid_argument` |
| `BaseProperties.ParseNats` | test/unittest/unittest_base_properties.cpp:212-224 | words read as numbers exactly when every word is a numeral, each to its value |
| `BaseProperties.ParseDim` | test/unittest/unittest_base_properties.cpp:416-434 | a read dimension has four positive axes; a failure is `invalid_argument` |
| `BaseProperties.ParseDimOfJoin` | test/unittest/unittest_base_properties.cpp:212-224 | the ':'-joined numerals of some axes read as the dimension those axes make |
| `BaseProperties.ParseDimOfDimToString` | test/unittest/unittest_base_properties.cpp:205-217 | every dimension with positive axes reads back from its printed text |
| `BaseProperties.ParseBananaIgnoresCase` | test/unittest/unittest_base_properties.cpp:274-282 | a text reads as a banana kind exactly when it equals that kind's name ignoring case |
| `BaseProperties.ParseBananaOfName` | test/unittest/unittest_base_properties.cpp:284-292 | each kind reads back from its canonical name |
| `BaseProperties.Parse` | test/unittest/unittest_base_properties.cpp:182-238 | a read value has the property's C++ type; a failure is `invalid_argument` or `out_of_range` |
| `BaseProperties.ParseOfPrint` | test/unittest/unittest_base_properties.cpp:173-238 | every value of a property's type reads back from `to_string` |
| `BaseProperties.ParseBoolExactly` | test/unittest/unittest_base_properties.cpp:226-238 | a bool is read from exactly "true" or "false" |
| `BaseProperties.Convert` | test/unittest/unittest_base_properties.cpp:401-439 | `from_string` succeeds exactly when the text parses and the validator accepts; a parsed but refused value is `invalid_argument` |
| `BaseProperties.NumBananaAcceptsNonNegative` | test/unittest/unittest_base_properties.cpp:43 | `NumBanana` stores exactly the non-negative ints |
| `BaseProperties.QualityAcceptsGood` | test/unittest/unittest_base_properties.cpp:57-60 | `QualityOfBanana` stores its text exactly when it ends with "good" |
| `BaseProperties.DimensionAcceptsBatchOne` | test/unittest/unittest_base_properties.cpp:95-97 | `DimensionOfBanana` stores a dimension exactly when its batch is 1 |
| `BaseProperties.Elements` | test/unittest/unittest_base_properties.cpp:294-301 | the elements of a list text are its ',' pieces, each trimmed |
| `BaseProperties.ConvertAll` | test/unittest/unittest_base_properties.cpp:446-456 | a list reads exactly when every element does, element by element |
| `BaseProperties.ConvertAllFirstFailure` | test/unittest/unittest_base_properties.cpp:446-456 | a list fails with the exception of its first bad element |
| `BaseProperties.ConvertProperty` | test/unittest/unittest_base_properties.cpp:458-479 | a read property fits its shape and every value passes the validator; an array given the wrong number of elements is `invalid_argument` |
| `BaseProperties.PrintIsListSafe` | test/unittest/unittest_base_properties.cpp:294-310 | printed ints, bools, dimensions and enums hold no ',' and no outer spaces |
| `BaseProperties.ConvertPropertyOfPrint` | test/unittest/unittest_base_properties.cpp:294-310 | an admissible single value reads back from its `to_string`; so does a non-empty vector or array whose printed elements hold no ',' and no outer spaces |
| `BaseProperties.ConvertAllOfPrint` | test/unittest/unittest_base_properties.cpp:294-301 | a non-empty printed list of admissible values, each printing with no ',' and no outer spaces, reads back element by element |
| `BaseProperties.ElementsOfJoin` | test/unittest/unittest_base_properties.cpp:294-301 | joining one or more texts, each with no ',' and no outer spaces, with ',' gives them back as elements |
| `BaseProperties.PrintStored` | test/unittest/unittest_base_properties.cpp:173-180 | `to_string` succeeds exactly when every slot holds a value |
| `BaseProperties.Property.Set` | test/unittest/unittest_base_properties.cpp:371-384 | `set` stores a value the validator accepts and otherwise throws `invalid_argument` and keeps the old value |
| `BaseProperties.Property.FromString` | test/unittest/unittest_base_properties.cpp:182-203 | `from_string` replaces every slot with what was read, or throws and keeps the old contents |
| `PropertyLoader.KeyValue` | test/unittest/unittest_base_properties.cpp:340-352 | with spaces removed, an entry holding exactly two non-empty runs of characters other than '=' gives them as key and value; otherwise `invalid_argument` |
| `PropertyLoader.KeyValueOfRender` | test/unittest/unittest_base_properties.cpp:340-352 | a well-formed entry reads back from its "key=value" text |
| `PropertyLoader.Entries` | test/unittest/unittest_base_properties.cpp:340-352 | every piece must be a well-formed entry, read in order |
| `PropertyLoader.ClaimedMembers` | test/unittest/unittest_base_properties.cpp:340-352 | a property takes exactly the entries whose key is its own, ignoring case |
| `PropertyLoader.LeftAfterIsUnowned` | test/unittest/unittest_base_properties.cpp:340-352 | after all properties have taken theirs, the entries left are exactly those no property owns |
| `PropertyLoader.Loaded` | test/unittest/unittest_base_properties.cpp:340-352 | a property that receives entries ends up holding the value of the last one |
| `PropertyLoader.LoadedOkIff` | test/unittest/unittest_base_properties.cpp:340-368 | loading into a property succeeds exactly when every value it receives reads |
| `PropertyLoader.LoadInto` | test/unittest/unittest_base_properties.cpp:340-352 | one property reads its entries in order and returns the others; it fails with the first rejected value's exception, and in every case holds `Held`: the last value accepted before any rejection |
| `PropertyLoader.LoadProperties` | test/unittest/unittest_base_properties.cpp:340-368 | malformed input changes nothing; otherwise it succeeds exactly when every property reads all its entries, each property then holds its last entry's value, and the unclaimed entries come back as "key=value" in input order; on a rejected value it fails at some property (`FailedAt`): those before it hold their loaded values, it holds what it read before the rejected value and its exception is raised, those after it are unchanged |
| `PropertyLoader.LoadStep` | test/unittest/unittest_base_properties.cpp:340-368 | loading the next property extends the loaded prefix, or leaves the tuple in the `FailedAt` state for that property |
| `PropertyLoader.ClaimedAppend` | test/unittest/unittest_base_properties.cpp:340-368 | the entries a property takes from two stretches of entries are those it takes from each, in order |
| `PropertyLoader.Held` | test/unittest/unittest_base_properties.cpp:340-368 | when reading the entries succeeds, what the property holds is the loaded value |
| `PropertyLoader.LoadedAfterThrow` | test/unittest/unittest_base_properties.cpp:340-368 | after a rejected value, later entries change neither the exception nor what the property holds |
| `PropertyLoader.ReadRejected` | test/unittest/unittest_base_properties.cpp:340-368 | the first rejected entry's exception is the read's, and the property keeps what it read before it |
| `BananaCases.NumBananaCases` | test/unittest/unittest_base_properties.cpp:173-187 | "3" reads as 3 and 3 and 123 print as themselves; "-1" and "not integer" are refused |
| `BananaCases.QualityCases` | test/unittest/unittest_base_properties.cpp:189-203 | "this is good" is stored and printed unchanged; "invalid_str" is refused |
| `BananaCases.MarkAsGoodCases` | test/unittest/unittest_base_properties.cpp:226-238 | "true" reads and prints as true; "no" is refused |
| `BananaCases.DimensionOfNumerals` | test/unittest/unittest_base_properties.cpp:205-224 | a text whose ':' pieces are numerals reads as the dimension they make, kept only with batch 1 |
| `BananaCases.FullDimension` | test/unittest/unittest_base_properties.cpp:212-217 | "1:2:3:4" reads as that dimension |
| `BananaCases.FullDimensionPrint` | test/unittest/unittest_base_properties.cpp:205-210 | dimension 1,2,3,4 prints as "1:2:3:4" |
| `BananaCases.ShortDimension` | test/unittest/unittest_base_properties.cpp:219-224 | "3:4" reads as 1:1:3:4 |
| `BananaCases.ShortDimensionPrint` | test/unittest/unittest_base_properties.cpp:219-224 | dimension 1,1,3,4 prints as "1:1:3:4" |
| `BananaCases.FiveAxesRefused` | test/unittest/unittest_base_properties.cpp:386-419 | "1:1:2:3:5" and five axes to `set` are refused |
| `BananaCases.ZeroAxisRefused` | test/unittest/unittest_base_properties.cpp:391-399 | a zero axis is refused |
| `BananaCases.BatchTwoRefused` | test/unittest/unittest_base_properties.cpp:381-424 | "2:2:3:5" and the dimension 3,3,2,4 fail the validator |
| `BananaCases.EmptyAxisRefused` | test/unittest/unittest_base_properties.cpp:426-434 | "" and ":2:3:5" are not dimensions |
| `BananaCases.BananaTypeCases` | test/unittest/unittest_base_properties.cpp:274-288 | "CAVENDISH", "Plantain" and "manzano" read as their kinds; Cavendish prints canonically |
| `BananaCases.ElementsOfPadded` | test/unittest/unittest_base_properties.cpp:294-301 | a list whose pieces are words, each bare or after one space, has exactly those words as elements |
| `BananaCases.VectorRead` | test/unittest/unittest_base_properties.cpp:294-301 | "1, 2,3, 4, 5" reads as the vector 1 to 5 |
| `BananaCases.VectorPrint` | test/unittest/unittest_base_properties.cpp:294-301 | the vector 1 to 5 prints as "1,2,3,4,5" |
| `BananaCases.ArrayRead` | test/unittest/unittest_base_properties.cpp:303-310 | "1, 2,3, 4" fills an array of four with 1 to 4 |
| `BananaCases.ArrayPrint` | test/unittest/unittest_base_properties.cpp:303-310 | the array 1 to 4 prints as "1,2,3,4" |
| `BananaCases.ArrayLengthRefused` | test/unittest/unittest_base_properties.cpp:458-467 | three or five elements do not fit an array of four |
| `BananaCases.VectorNotValidRefused` | test/unittest/unittest_base_properties.cpp:446-450 | "1, 2, 3, not_valid" is refused for a vector |
| `BananaCases.VectorNegativeRefused` | test/unittest/unittest_base_properties.cpp:452-456 | "1, 2, 3, -1" is refused for a vector |
| `BananaCases.ArrayInvalidRefused` | test/unittest/unittest_base_properties.cpp:469-473 | "1, 2, invalid, 4" is refused for an array |
| `BananaCases.ArrayNegativeRefused` | test/unittest/unittest_base_properties.cpp:475-479 | "1, 2, -1, 4" is refused for an array |

## Left out

- The OS calls are modelled as follows:
  - `open` is modelled as its returned descriptor, passed to `Start`.
  - `lseek` fails only for a negative offset.
  - `write` never fails; a full disk is not modelled.
  - `mmap` fails for an empty window or a negative offset.
  - `mlock`, `madvise`, `munmap`, `malloc_trim` and the failure of `calloc` are not modelled.
  - The Windows branch is not modelled.
- `SwapDevice.Device.constructor`: `swap_device.h` is not part of this model. A new device is taken to be closed (`fd == -1`) with empty tables.
- `SwapDevice.Device.Start`: TRAIN mode does not record the execution mode, as written at swap_device.cpp line 39. Only the other modes store it.
- `SwapDevice.Device.Finish`: `free` of the `mapped` keys in TRAIN mode is modelled as clearing the table, since no memory model is kept.
- `SwapDevice.Device.GetBuffer`: on the mapped path an offset between minus one page and 0 is refused with `runtime_error`. The source's truncating division maps from file offset 0 there and returns a pointer `diff` bytes before the mapping (swap_device.cpp lines 110-119). That pointer is outside the mapping and the model has no memory to give it.
- `ByteFile.Window`: every byte past the end of the file reads as 0. A real file mapping gives zeros only up to the end of the page that holds the end of the file, and touching a later page raises SIGBUS. The model does not capture that fault, neither for the INFERENCE `memcpy` nor for a caller's access to a mapped buffer.
- `SwapDevice.Device.GetBuffer`: the INFERENCE preload requires `memoryPtr` to be large enough for the weight (`PreloadFits`). The C++ `memcpy` does not check this.
- `OptimizedV2Planner.ProcessingOrder`: requests with equal intervals keep their input order. The header does not say how such ties are broken, so this is a choice of this model, and `Layout` depends on it.
- `OptimizedV2Planner.PlanLayout`: the `memory_is_wgrad` and `n_wgrad` parameters and the gradient policy are left out. The header does not show them. Determinism holds because the method reads only its inputs.
- `OptimizedV2Planner.PlanLayout`: a request with size 0 or with `start >= end` is rejected with `invalid_argument`. The planner's body is not part of this model. The header gives no rule for such requests, and these are the malformed requests the library treats as contract violations.
- The body of `nntrainer/utils/base_properties.cpp` is not part of this model. The grammar above is chosen to agree with the unit tests. Where the tests say nothing, these are choices of this model:
  - bool: only `true` and `false` are read. Other spellings such as `1`, `yes` or `True` are refused.
  - int: a leading `+`, spaces inside or around the digits of a single value, and trailing text are refused.
  - int: `out_of_range` is raised for any value outside the 32-bit range, however many digits it has.
  - list: only the space character is trimmed around elements, not tabs or other white space.
  - list: empty pieces are kept, so `""` and `"1,,2"` are refused; they are not read as an empty list, and an empty piece is not skipped.
  - `from_string` of a list is all or nothing: when any element is refused, the property keeps its whole old contents and no element is stored. `PropertyLoader.Held` and `PropertyLoader.FailedAt` build on this choice.
  - `loadProperties`: every space inside an entry is removed, including spaces inside the value.
- Properties the model leaves out:
  - float properties (`FreshnessOfBanana`);
  - pointer properties (`PtrOfBanana`);
  - `tag_cast`, `prop_info` and `getPropKey`;
  - the `Exporter` and `LayerNode` tests (lines 144-171, 240-272, 312-338, 481-498 of the test file).
- `BaseProperties.ConvertPropertyOfPrint`: the round trip is not promised for an empty vector, which prints `""` and reads as the one element `""` and is refused, nor for string elements that hold ',' or begin or end with a space (a `QualityOfBanana` vector holding `"a,good"` or `" good"`), which split or trim differently when read back.
- `BaseProperties.Property.ToString`: `to_string` of a property that has no value throws `invalid_argument`. This is a modelling choice.
- `PropertyLoader.LoadProperties`: when a property refuses a value, the properties loaded before it keep their new values, and that property keeps what it read before the refused value (`FailedAt`). This is modelled, not rolled back.
- `BananaCases`: the `loadProperties` examples at lines 340-368 are not restated as concrete cases. `PropertyLoader.LoadProperties` states their behaviour in general.
