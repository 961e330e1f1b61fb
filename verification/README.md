# PyDataCore data pool, modelled in Dafny

PyDataCore keeps typed data records in a central pool. Sources register records and write them once. Subscribers read and acknowledge them. When the last subscriber acknowledges an unprotected record, the pool releases it.

A record (`Data` and its subclasses) holds its samples in one of two places:
- a RAM buffer;
- a flat file `<folder>/<id>.dat` of fixed-width samples.

A record can be:
- written whole or from a chunk generator;
- read whole, sequentially in chunks, or by chunk index;
- moved between RAM and file.

Two limit kinds come on top:
- a frequency limit, interpolated linearly or on a logarithmic axis;
- a temporal limit, queried by time window.

The model has these parts:
- **Records.** `Records.Record<T>` is a record over an abstract element type `T`. The disk is a map `Fs<T>` from `FilePath(folder, id)` to the sequence of samples in that file. Byte-level reads are modelled by `Chunks.ReadSamples`: `n` bytes at a cursor, from a file of `w`-byte samples, unpacked only when the byte count is whole.
- **The pool.** `DataPool.Pool<T>` has four parts:
  - the registry (`data_registry`);
  - the source rows with their lock and protection flags (`source_to_data`);
  - the subscriber rows in insertion order (`subscriber_to_data`);
  - the files.
- **Pool operations.** Every pool operation is a function returning a `Reply`: the next pool plus the value or the exception. Several calls change the pool before they raise, so a failed call still has a successor pool.
- **The invariant.** `DataPool.Valid` is preserved by every operation:
  - each registry row has exactly one source row;
  - each record describes itself;
  - the storage column agrees with the backend;
  - a record's file is its own `<folder>/<id>.dat` and exists.
- **Generators.** They are modelled as the sequence of chunks they yield when consumed to the end. `Readers` also gives the read loops as loops, and proves they yield the same chunks.
- **Sample types.** `Samples` has the sample-type table; `Kinds` has the data-type enumeration, the class table and the constructor keyword arguments.
- **Limits.** `FreqLimits` and `TempLimits` model the two limit classes.

## Model

| member | source | states |
|---|---|---|
| Samples.ParseSampleType | src/PyDataCore/data.py:42-59 | exactly the five known tags parse, each back to itself; any other tag raises |
| Samples.SampleFormatAndSize | src/PyDataCore/data.py:42-59 | the struct format and byte size of each tag: f/4, d/8, i/4, q/8, s/1; an unknown tag is refused |
| Samples.Width | src/PyDataCore/data.py:42-59 | a sample is never zero bytes wide; it is one byte exactly for text, eight exactly for the 64-bit types |
| Samples.TagRoundTrip | src/PyDataCore/data.py:42-59 | tags and sample types are in one-to-one correspondence |
| Samples.FormatDeterminesType | src/PyDataCore/data.py:42-59 | distinct sample types have distinct format characters |
| Kinds.EnumValueInjective | src/PyDataCore/data.py:349-362 | distinct members of the data-type enumeration have distinct values |
| Kinds.MemberByName | src/PyDataCore/data.py:349-362 | attribute access on the enumeration finds the member whose name it is; an unknown name raises |
| Kinds.MemberByNameComplete | src/PyDataCore/data.py:349-362 | every member is found under its own name |
| Kinds.ClassTable | src/PyDataCore/datapool.py:48-60 | the class dictionary builds only when every listed name is a member; each listed member's value is a key mapping back to a member with that value |
| Kinds.ClassTableAsWrittenFails | src/PyDataCore/datapool.py:58-59 | with the names as written (`FREQ_LIMITS`, `TEMP_LIMITS`) the dictionary cannot be built |
| Kinds.ClassTableComplete | src/PyDataCore/datapool.py:48-60 | with the names corrected, the dictionary maps the value of every member to that member |
| Kinds.Instantiate | src/PyDataCore/datapool.py:73-91 | a kind's constructor accepts its keyword arguments exactly when every required one is there and none is unknown; each passed argument becomes its attribute, and a missing optional one defaults to 0.0 |
| Kinds.DefinitionsFromArguments | src/PyDataCore/datapool.py:199-210 | a signal built from a non-null step and unit passes the definitions check |
| Kinds.LacksDefinitions | src/PyDataCore/datapool.py:199-210 | only temporal and frequency signals are checked, and one is refused exactly when its step or its unit is None |
| Kinds.DefinitionsExactly | src/PyDataCore/datapool.py:199-210 | a record built from keyword arguments fails the check exactly when it is a signal given a None step or unit |
| Records.NewRecord | src/PyDataCore/data.py:10-33 | a new record has no file, no size and zero samples; the FFT and limit kinds start with an empty list, the others with no data |
| Records.StoreFromGenerator | src/PyDataCore/data.py:61-94 | a chunk write stores the concatenation of the chunks in RAM or in `<folder>/<id>.dat`, counts every sample, and sets the byte size to count × width; in file mode it needs a folder and touches no other file |
| Records.StoreFromGeneratorAsWritten | src/PyDataCore/data.py:61-94 | as written, it agrees with the corrected write except on text files, whose samples are written but counted as zero samples and zero bytes |
| Records.StoreTextCountLost | src/PyDataCore/data.py:71-78 | on the text chunk "AB", the file holds two samples while the as-written count is 0 and the corrected count is 2 |
| Records.StoreFromObject | src/PyDataCore/data.py:96-134 | an object write stores the list in RAM or in the record's file, with count and byte size for numeric kinds; `StrData` accepts only a string, keeps it as its data, and refuses anything else |
| Records.ReadData | src/PyDataCore/data.py:136-157 | a whole read returns what the record holds; it raises when the record's file is gone, and returns nothing for a file-backed text record other than `StrData` |
| Records.FileChunks | src/PyDataCore/data.py:216-226 | reading `cs` samples at a time until an empty read yields a chunking of the file; a zero size yields nothing; a negative size yields the whole file at once |
| Records.RamChunks | src/PyDataCore/data.py:227-235 | stepping through the buffer by `cs` yields its chunking; a zero step raises; a negative step yields nothing |
| Records.ReadChunked | src/PyDataCore/data.py:206-235 | for a positive size, the chunked read succeeds exactly when the record holds data, and its chunks join to that data in pieces of `cs`; an unloaded RAM record raises |
| Records.ReadOverlapped | src/PyDataCore/data.py:237-258 | the overlapped reader succeeds exactly when the sequential reader does, and yields the same chunks |
| Records.OverlapIgnored | src/PyDataCore/data.py:237-258 | whatever the overlap argument, the overlapped reader yields the same windows |
| Records.ReadSpecificChunk | src/PyDataCore/data.py:260-303 | random access refuses a RAM record, a missing file and a negative offset; it returns nothing once the recorded size is exhausted; otherwise it returns a contiguous run of the file starting at chunk `i` |
| Records.SpecificChunkIsSlice | src/PyDataCore/data.py:260-303 | given the size a write records, chunk `i` is the slice [i·cs, min((i+1)·cs, n)) of the file, or empty past the end |
| Records.SpecificChunkMatchesSequential | src/PyDataCore/data.py:260-303 | random access to chunk `i` agrees with the i-th chunk of the sequential reader |
| Records.ConvertRamToFile | src/PyDataCore/data.py:307-333 | moving to a file keeps the samples, writes `<folder>/<id>.dat`, drops the buffer and sets the file backend; it needs a folder and a buffer; a file record is left as it is |
| Records.ConvertFileToRam | src/PyDataCore/data.py:335-346 | moving to RAM keeps the samples and removes exactly the record's file; it refuses a record with no file |
| Records.MigrationRoundTrip | src/PyDataCore/data.py:307-346 | RAM to file and back restores the record and the other files |
| Records.DeleteRecordData | src/PyDataCore/data.py:159-164 | deleting removes the record's file (raising if it is already gone) and drops the buffer |
| Records.AddFftSignal | src/PyDataCore/data.py:425-433 | an FFT collection accepts only frequency signals, appending the signal's identifier at the end |
| DataPool.EmptyValid | src/PyDataCore/datapool.py:10-24 | a fresh pool satisfies the invariant |
| DataPool.FirstMatch | src/PyDataCore/datapool.py:130-136 | the row an acknowledgment marks is the first one binding that subscriber to that record, and exists exactly when the subscriber is subscribed |
| DataPool.Without | src/PyDataCore/datapool.py:182-183 | dropping a record's subscriber rows keeps the other rows and none of that record's; it never grows the list |
| DataPool.WithoutCounts | src/PyDataCore/datapool.py:182-183 | every row not about the record survives exactly as often as it occurred, and no row about it survives |
| DataPool.WithoutAppend | src/PyDataCore/datapool.py:182-183 | filtering a concatenation filters each part and keeps their order |
| DataPool.WithoutUpdate | src/PyDataCore/datapool.py:130-136 | marking one of the record's rows acknowledged does not change which rows survive the record's release |
| DataPool.AddSubscriber | src/PyDataCore/datapool.py:114-122 | subscribing appends one unacknowledged row after the existing rows, which stay as they were, so the record is no longer fully acknowledged; the registry, source rows and files are untouched |
| DataPool.RegisterWith | src/PyDataCore/datapool.py:30-112 | registration builds the class table first (failing with it), then instantiates the kind; on success it adds one registry row and one locked source row, and nothing else changes |
| DataPool.RegisterAsWritten | src/PyDataCore/datapool.py:48-60 | as written, every registration raises before a record is created, and the pool is unchanged |
| DataPool.RegisterData | src/PyDataCore/datapool.py:30-112 | with the table corrected, registration succeeds exactly when the keyword arguments fit the kind; the new record has zero samples and one new source row locking it to its source; every other registry and source row, the subscriber rows and the files are kept |
| DataPool.RegisterFinding | src/PyDataCore/datapool.py:58-59 | for any arguments the kind accepts, registration fails as written and succeeds once corrected |
| DataPool.SetLock | src/PyDataCore/datapool.py:190-196 | setting the lock flag changes that one flag and nothing else, and keeps the invariant |
| DataPool.LockData | src/PyDataCore/datapool.py:190-192 | locking sets the record's flag, keeps its source and protection, and leaves every other row alone |
| DataPool.UnlockData | src/PyDataCore/datapool.py:194-196 | unlocking clears the record's flag, keeps its source and protection, and leaves every other row alone |
| DataPool.LockUnlock | src/PyDataCore/datapool.py:190-196 | locking then unlocking an unlocked record restores the pool |
| DataPool.DropRows | src/PyDataCore/datapool.py:158-188 | a released record loses its registry row, source row and subscriber rows; nothing else changes |
| DataPool.DropRowsValid | src/PyDataCore/datapool.py:158-188 | dropping a record and removing only its own file keeps the invariant |
| DataPool.ReleaseData | src/PyDataCore/datapool.py:158-188 | a release removes the record's registry row, its source row and exactly its subscriber rows, removes its own file if it has one and nothing else, keeps every other record, and keeps the invariant |
| DataPool.DeleteData | src/PyDataCore/datapool.py:261-286 | an unprotected record loses its registry row, source row and subscriber rows, then its own file; anything else is a silent no-op; the only failure is a file already gone, raised after the rows are dropped, which cannot happen in a valid pool |
| DataPool.DeleteProtectedNoop | src/PyDataCore/datapool.py:261-286 | deleting a protected record changes nothing |
| DataPool.AcknowledgeData | src/PyDataCore/datapool.py:124-156 | acknowledging marks the first matching row; the record is released exactly when that completes its acknowledgments and it is unprotected, and then it loses its rows and its own file and nothing else changes; an unsubscribed caller raises |
| DataPool.AllAcknowledged | src/PyDataCore/datapool.py:147-156 | a record's rows are all acknowledged exactly when none of them is still pending, which holds when it has no rows at all |
| DataPool.PendingZero | src/PyDataCore/datapool.py:147-156 | no pending row for a record is the same as every row of it being acknowledged |
| DataPool.Singletons | src/PyDataCore/datapool.py:245-248 | iterating a string yields one chunk per character, and the chunks join back to the string |
| DataPool.Dispatch | src/PyDataCore/datapool.py:240-253 | a text record refuses a list; otherwise the write fails exactly for a file record without a folder; a successful write leaves the record holding the payload's samples, whichever writer ran, except a text record already backed by a file, which keeps reading its file |
| DataPool.DispatchKeeps | src/PyDataCore/datapool.py:242-256 | a write keeps the record's identity and backend, keeps it owning its file, and changes no other record's file |
| DataPool.StoreData | src/PyDataCore/datapool.py:212-259 | the checks come in the source's order, each with its own error: unknown record, foreign source, unlocked record, missing step or unit, file record without a folder; once all pass the write succeeds exactly when the dispatched write does, writes the payload and unlocks, leaving every other record, source row, subscriber row and file as it was; failure changes nothing |
| DataPool.GetDataInfo | src/PyDataCore/datapool.py:288-297 | the row of an unlocked record; a locked or unknown record raises |
| DataPool.ReadAccess | src/PyDataCore/datapool.py:309-316 | reads need a source row, no lock and a subscriber row, and raise NotFound, Locked or Unauthorized in that order |
| DataPool.AfterAck | src/PyDataCore/datapool.py:321-326 | a read's value is returned only when the acknowledgment succeeds |
| DataPool.GetData | src/PyDataCore/datapool.py:299-326 | a subscriber's read returns the record's data and acknowledges it; a refused read changes nothing |
| DataPool.GetChunkGenerator | src/PyDataCore/datapool.py:328-365 | the chunked read is only for signals; a permitted chunked read of a signal whose contents exist succeeds, its chunks are the chunking of the record's data, and the subscriber acknowledges after the last one |
| DataPool.GetDataChunk | src/PyDataCore/datapool.py:367-390 | chunk access reads a file record through random access (signals only) and slices a RAM buffer, with no lock or subscriber check |
| DataPool.RamChunkMatchesGenerator | src/PyDataCore/datapool.py:386-390 | on a RAM record, chunk `i` is the i-th chunk the generator yields, or empty past the end |
| DataPool.FileChunkMatchesGenerator | src/PyDataCore/datapool.py:383-385 | on a file record whose size the write recorded, chunk `i` is also the i-th chunk the generator yields |
| DataPool.GetOverlappedChunkGenerator | src/PyDataCore/datapool.py:392-420 | the overlapped read checks the lock but not the subscriber: with no subscriber it hands out the sequential chunks and changes nothing, a subscribed reader gets them too, and an unknown subscriber is refused only by the final acknowledgment |
| DataPool.ConvertDataToRam | src/PyDataCore/datapool.py:422-446 | a file signal moves to RAM with its samples, loses its file and ends unlocked; a RAM record ends exactly as unlocking it would leave it; other records and subscriber rows are kept; any failure leaves it locked |
| DataPool.ConvertDataToFile | src/PyDataCore/datapool.py:448-475 | a RAM signal moves to `<folder>/<id>.dat` with its samples, drops its buffer and ends unlocked, and no other file changes; a file record ends exactly as unlocking it would leave it; a missing folder or any failure leaves it locked |
| DataPool.MigrationKeepsContents | src/PyDataCore/datapool.py:422-475 | RAM to file and back gives the same samples, the RAM backend, an unlocked row, and no leftover file |
| DataPool.ToFileStep | src/PyDataCore/datapool.py:448-475 | a RAM signal with a buffer moves to `<folder>/<id>.dat`: the file holds exactly its buffer, the signal reads back the same samples and stays valid, and its row ends unlocked |
| DataPool.ToRamStep | src/PyDataCore/datapool.py:422-446 | a file signal moves to RAM with the same samples, its file and only its file is removed, and its row ends unlocked |
| Chunks.PySlice | src/PyDataCore/datapool.py:388-390 | Python's `s[a:b]` equals the Dafny slice within bounds, and is empty from the end on |
| Chunks.Split | src/PyDataCore/data.py:228-235 | the chunks of `range(0, n, cs)` join back to the data; each has `cs` elements except a shorter, non-empty last one |
| Chunks.ChunkingUnique | src/PyDataCore/data.py:206-235 | Split is the only sequence of chunks of that shape joining to the data |
| Chunks.SplitCount | src/PyDataCore/data.py:228-235 | the chunk count is ceil(n / cs) |
| Chunks.SplitIndex | src/PyDataCore/data.py:228-235 | chunk `i` is the slice [i·cs, min((i+1)·cs, n)) |
| Chunks.SliceIsChunk | src/PyDataCore/datapool.py:388-390 | the accessor's slice for index `i` is chunk `i`, or empty past the end |
| Chunks.ReadSamples | src/PyDataCore/data.py:219-226 | a read of `n` bytes at a cursor returns a contiguous run of samples from the cursor, and the rest of the file for a negative `n` |
| Chunks.ReadWholeSamples | src/PyDataCore/data.py:219-226 | a read of `count × width` bytes returns the next `count` samples, clipped at the end of the file |
| Readers.ReadFileChunks | src/PyDataCore/data.py:216-226 | the file read loop yields exactly the file chunks, which for a positive size are Split |
| Readers.ReadFixedChunks | src/PyDataCore/data.py:216-226 | the read loop for a positive size yields Split of the file |
| Readers.ReadRamChunks | src/PyDataCore/data.py:227-235 | the RAM loop yields exactly the RAM chunks, which for a positive step are Split |
| Lifecycle.RegisteredIsLocked | src/PyDataCore/datapool.py:104-110 | a freshly registered record cannot be inspected or read until it is written |
| Lifecycle.OnlyOwnerWrites | src/PyDataCore/datapool.py:227-233 | another source is refused, and so is the owner once the record is unlocked |
| Lifecycle.WriteOnce | src/PyDataCore/datapool.py:232-259 | after a successful write, a second write is refused |
| Lifecycle.RamRoundTrip | tests/testdatapool.py:37-78 | register, store, subscribe, read: the subscriber reads what was stored, and the read releases the record |
| Lifecycle.FileRoundTrip | tests/testdatapool.py:95-117 | the same through a file, subscribing before the write as the test does: the file holds the samples, the read returns them, and the release removes the file |
| Lifecycle.FileChunkedRead | tests/testdatapool.py:151-193 | subscribed before the write, a chunked read of a file signal yields the chunks `range(0, n, cs)` cuts, then releases the record |
| Lifecycle.StoreStep | src/PyDataCore/datapool.py:212-259 | the owning source's list write to any locked signal with its definitions (and a folder when it is file-backed) succeeds, unlocks it, keeps its kind, and leaves it holding the list, in `<folder>/<id>.dat` when it is file-backed and in RAM, with no file touched, otherwise, a folder passed to a RAM signal being ignored |
| Lifecycle.SubscribeAfterStore | src/PyDataCore/datapool.py:114-122 | the first subscriber of a written, unprotected record, whatever its name, is its sole reader |
| Lifecycle.SubscribeStoreCommute | src/PyDataCore/datapool.py:114-122 | subscribing before a write and after it end in the same pool with the same outcome, since the write neither reads nor changes subscriber rows |
| Lifecycle.ReadStep | src/PyDataCore/datapool.py:299-326 | a sole reader's read returns the record's samples, releases it and removes its file |
| Lifecycle.ChunkStep | src/PyDataCore/datapool.py:328-365 | a sole reader's chunked read returns Split of the samples and releases the record |
| Lifecycle.AckSoleSubscriber | src/PyDataCore/datapool.py:124-188 | the last outstanding acknowledgment of an unprotected record releases it and removes exactly its file |
| Lifecycle.TwoSubscribers | src/PyDataCore/datapool.py:124-156 | with any two distinct subscribers, the first acknowledgment keeps the record and the second releases it |
| Lifecycle.FirstAckKeeps | src/PyDataCore/datapool.py:124-156 | with two distinct subscribers, the first acknowledgment marks only its own row, keeps the record and every source row, and leaves a valid pool |
| Lifecycle.FirstOfTwo | src/PyDataCore/datapool.py:114-136 | two subscriptions, under any names, append two rows in order; the first subscriber's row is the one its acknowledgment marks |
| Lifecycle.FirstMatchAfter | src/PyDataCore/datapool.py:130-136 | rows of other records ahead of a row do not change that it is the first match for its subscriber |
| Lifecycle.AppendsRow | src/PyDataCore/datapool.py:114-122 | a subscription is exactly one row appended to the list |
| Lifecycle.ProtectedSurvives | src/PyDataCore/datapool.py:139-145 | a protected record survives every acknowledgment and every delete |
| Lifecycle.SignalArgs | tests/testdatapool.py:17-25 | the test's keyword arguments fit a temporal signal and pass the definitions check |
| FreqLimits.SetInterpolationType | src/PyDataCore/data.py:491-497 | only "linear" and "log" are accepted, and the points and range are kept |
| FreqLimits.AddLimitPoint | src/PyDataCore/data.py:499-512 | a point is appended unsorted, the frequency range widens to include it, and a covering range stays covering |
| FreqLimits.ClearLimitPoints | src/PyDataCore/data.py:514-518 | clearing forgets the points but keeps the interpolation type and the frequency range |
| FreqLimits.AddAllRange | src/PyDataCore/data.py:499-512 | from empty, the recorded range is exactly the least and greatest frequency added |
| FreqLimits.AddAllFrom | src/PyDataCore/data.py:499-512 | adding a list keeps the extremes of what was there and what came |
| FreqLimits.Interpolate | src/PyDataCore/data.py:520-553 | no points or no type raises; below the first point gives the first level, above the last gives the last; strictly between, a first bracketing point exists and the result is the segment level between it and its predecessor; linear always succeeds; the "range not found" error never happens |
| FreqLimits.BracketFrom | src/PyDataCore/data.py:540-553 | a frequency strictly inside the first and last points has a first point at or above it |
| FreqLimits.ScanAtFirst | src/PyDataCore/data.py:540-553 | the loop stops at the first point at or above the frequency |
| FreqLimits.Scan | src/PyDataCore/data.py:540-553 | the bracketing loop always finds a bracket; it fails only for a non-positive frequency on the log axis |
| FreqLimits.Segment | src/PyDataCore/data.py:542-551 | the linear level lies on the straight line through the two bracketing points, between their levels, and equals the upper level at its frequency; the log level is the log curve through them and needs a positive lower frequency |
| FreqLimits.LinearWithinLevels | src/PyDataCore/data.py:520-553 | a linear limit never leaves the band of its points' levels |
| FreqLimits.LinearThroughPoints | src/PyDataCore/data.py:520-553 | with increasing frequencies, a linear limit passes through each of its own points |
| FreqLimits.LinearExample | tests/test_freq_limit_data.py:17-39 | (10 Hz, −20), (20 Hz, −10), (40 Hz, −5) interpolated linearly at 15 Hz gives −15 |
| FreqLimits.LogExample | tests/test_freq_limit_data.py:43-55 | after switching to log, clearing and adding (10 Hz, −20), (1000 Hz, −10), the level at 100 Hz is the log curve through those two points, and the range still spans 10 Hz to 1000 Hz |
| TempLimits.MaxReleaseBounds | src/PyDataCore/data.py:589-592 | the recorded maximum is at least every release time and is reached by one |
| TempLimits.AddLimitPoint | src/PyDataCore/data.py:575-592 | a point is accepted exactly when its transparency time follows the last one's; increasing order and the time range are kept |
| TempLimits.ClearLimitPoints | src/PyDataCore/data.py:594-598 | clearing forgets the points and the time range |
| TempLimits.Filter | src/PyDataCore/data.py:612-616 | the window keeps exactly the points lying wholly inside it |
| TempLimits.FilterIncreasing | src/PyDataCore/data.py:612-616 | filtering keeps the points in order |
| TempLimits.ConsIncreasing | src/PyDataCore/data.py:612-616 | a point ahead of every point of an increasing list keeps it increasing |
| TempLimits.GetLimitsInRange | src/PyDataCore/data.py:600-618 | a reversed window raises; otherwise the result is exactly the points inside the window, in order |
| TempLimits.WholeRange | src/PyDataCore/data.py:575-618 | on any limit the bookkeeping accepts, the window from the recorded minimum to the recorded maximum returns every point in order, and raises only when that range is reversed |
| TempLimits.EarlyReleaseKept | src/PyDataCore/data.py:575-618 | a point released before it becomes transparent, (0, 3, 1) after (0, 0, 5), is accepted, and the window [0, 5] returns both points |

## Left out

- Text is one element per character and one byte per element. UTF-8 encoding, the `"\n".join` used to size a written text file, and text written into a numeric file (a `struct` error) are not modelled.
- Records.StoreFromObject: the byte size of a text list, in RAM or in a file, is its element count, one byte each, not the UTF-8 length of the newline-joined text.
- DataPool.StoreData: the pool writes through the corrected chunk write (Records.StoreFromGenerator, see Findings), so a text file fed a string or a generator counts its samples; the as-written count of zero is modelled only by Records.StoreFromGeneratorAsWritten.
- Samples are abstract elements. float32 rounding on a round trip through a file is not modelled: the model reads back exactly what was written.
- FreqLimits.Interpolate: a logarithmic level is returned as the symbolic formula `LogCurve`, because the logarithms are not computed.
- FreqLimits.Segment: frequencies and levels are exact reals rather than float64, so rounding and overflow of the division are not modelled.
- FreqLimits.LinearWithinLevels: holds for exact reals; float64 rounding could put a level a rounding error outside the band.
- FreqLimits.LinearThroughPoints: holds for exact reals; float64 rounding is not modelled.
- Identifiers: `uuid4` is not modelled. The identifier is a parameter of registration, with the requirement that it be fresh.
- Folder creation, `os.path.abspath` and I/O failures are not modelled. A file is either present in the map or absent.
- Partial effects of writes that fail midway are not modelled. For example, a conversion that fails after setting the file path and creating the file is modelled as failing with the record unchanged.
- `StrData.read_data` applies `str()` to its buffer, which turns a missing buffer into the text "None". Records.ReadData returns the buffer as it is.
- Generators are consumed to the end. Laziness, partial consumption, and the moment an error surfaces (first `next()`) are not modelled.
- `asyncio` readiness events (`mark_data_ready`, `mark_data_unready`) are left out, and so are the diagnostic prints.
- `data_generator`, the FFT collection's `fft_signals` property and `fft_ids` are left out: they are test helpers or read-only views.
- The older `DataCore/` package is not part of this model.
- A subscriber identifier of `None` is only modelled where the pool takes it as optional (the chunk generators). In `get_data` it is a string.
- DataPool.GetDataInfo returns the registry row as an `Entry` rather than a pandas DataFrame.
- The overlapped reader on a text file is modelled like the other readers. Only the float32 signal kinds have that reader.
- Records.AddFftSignal requires an FFT collection, because the method exists only on that class.

## Findings

| source | as written | input that shows it | evidently intended | confidence | as-written member | corrected member |
|---|---|---|---|---|---|---|
| src/PyDataCore/datapool.py:58-59 | the class dictionary names `Data_Type.FREQ_LIMITS` and `Data_Type.TEMP_LIMITS`; the enumeration spells them `FREQ_LIMIT` and `TEMP_LIMIT` | any call of `register_data`, e.g. a temporal signal with `time_step=0.01, unit="V"`: building the dictionary raises `AttributeError` | the members `FREQ_LIMIT` and `TEMP_LIMIT`, so registration succeeds | not executed | DataPool.RegisterAsWritten | DataPool.RegisterData |
| src/PyDataCore/data.py:71-78 | in file mode, text chunks are written but `total_samples` only grows for numeric chunks, so the record counts 0 samples and 0 bytes | a text record in a file fed the chunk `"AB"` | the sample count and byte size of what was written (2 samples) | not executed | Records.StoreFromGeneratorAsWritten | Records.StoreFromGenerator |
