# Verification of the `base` library of the QUIC module

A model, in Dafny, of the parts of `model/base` whose correctness is hardest to see: protocols between
threads, the pickle format, streaming hashes, containers that change while they are iterated, nested
run loops and stopwatches, a cache, and three parsers. Each module follows one component of the source.
Code that changes fields or arrays is a class with methods or a method with loops, proved against
functions; what the source promises is proved about those functions, over all inputs and all runs.

| modules | component |
|---|---|
| `UpdateCounter`, `TornRead` | the even/odd counter by which `DeathData` publishes 64-bit byte counts (32-bit branch) |
| `LazyInstance`, `LazyResults` | the one-word protocol that creates an instance once; with a creator that may return anything |
| `ThreadDataPool` | `ThreadData` objects retired by threads and taken over by others |
| `Bits`, `PickleFormat`, `Pickle`, `PickleReader` | `Pickle`, `PickleIterator`, `PickleSizer` |
| `BlockHash`, `Md5`, `Sha1` | the streaming hashes against RFC 1321 and FIPS 180-3 |
| `ObserverList`, `ObserverVisits` | observer lists changed while they are iterated; whom an iteration visits |
| `RunLoop` | nested run loops with deferred quits |
| `Stopwatch`, `DeathData` | nested exclusive times; totals per profiling phase |
| `PathService`, `PathOverlap` | path lookup behind a cache; with calls that overlap |
| `Strings`, `CommandLine`, `FeatureList` | argv normalisation; printing and reading of feature overrides |
| `RandUtil`, `Version` | rejection sampling; version order with wildcards |

Protocols between threads are step systems: any number of threads take atomic steps in any order, under
sequential consistency. A run is a sequence of states joined by steps, and results are stated for every
run. `Wrappers` holds an option type.

Where the code does not do what its documentation or its use suggests, the code is modelled as it is,
the failing case is exhibited and the exact condition is proved:

- A reader of a byte count that is suspended for 2^31 updates after checking the counter can return a mix
  of two counts (`TornRead.ReadsUntornExactly`, `TornRead.TornAtFullWrap`).
- A creator of a lazy instance that returns 0 is run again, one that returns 1 leaves every later caller
  spinning (`LazyResults.RunsOnceExactly`, `LazyResults.AlwaysEndsExactly`).
- A nesting observer that quits the loop about to start has its quit lost
  (`RunLoop.ObserverQuitIsLost`, `RunLoop.QuitDeliveredExactly`).
- A stopwatch that was not timed itself, around one that was, reports a negative duration
  (`Stopwatch.OwnDurationExactly`, `Stopwatch.ToggledTimingGoesNegative`).
- A pickle of 2^31 bytes or more is refused by the read-only constructor, which takes its size as an `int`
  (`PickleReader.ImageReadsBack`, `PickleReader.WriteThenRead`, `PickleReader.LargePayload`).
- `Get` of the path service stores into the cache after dropping its lock, and can store a path that an
  override has made stale (`PathOverlap.OverrideBetweenLocks`, `PathOverlap.StoreKeepsCoherentExactly`).
- `Get` does not ask a provider that is registered between its first lock and its walk
  (`PathOverlap.RegisterBetweenLocks`, `PathOverlap.WalkIsCurrentExactly`).
- The list of retired thread data can hold objects of an earlier incarnation
  (`ThreadDataPool.RetiredOfEarlierIncarnation`, `ThreadDataPool.RetiredIsOldExactly`).
- argv is put in order by parsing it, but a switch written `--=` or `--name =` does not survive a second
  pass (`CommandLine.ReparseIsIdentityExactly`, `CommandLine.EmptySwitchIsLost`).
- A feature or trial name with white space at the end of its printed entry is not read back
  (`FeatureList.PrintedReadsBackExactly`, `FeatureList.TrailingSpaceIsLost`).

What the environment supplies is a parameter: clock readings, random draws, the current directory, the
file system, path providers, the field trials that resolve by name, the creator's results.

## Model

| member | source | states |
|---|---|---|
| `UpdateCounter.SplitJoin` | model/base/tracked_objects.cc:375-378 | The two stored words of a non-negative 64-bit count join to that count |
| `UpdateCounter.CountsAreRecordedTotals` | model/base/tracked_objects.cc:215-247 | In every interleaving of the owner with any number of readers, outside a call each byte count is the sum of everything recorded for it, clamped at the largest 64-bit value; the update counter is even exactly outside a call |
| `UpdateCounter.OperationsAreRecordedTotals` | model/base/tracked_objects.cc:231-240 | In every run, outside a call, each of the two operation counts is the sum of what all calls asked to count, clamped at the largest 32-bit value, and the maximum is the greatest of the clamped maxima given, 0 if there is none |
| `UpdateCounter.CallEnds` | model/base/tracked_objects.cc:215-247 | Every call ends: each step of the owner inside one brings it nearer to its end, which is at most 13 away |
| `UpdateCounter.TicksAdvanceCounter` | model/base/tracked_objects.cc:225-245 | The 32-bit update counter is its earlier value plus the number of increments in between, modulo 2^32 |
| `UpdateCounter.StillCounterFreezesCounts` | model/base/tracked_objects.cc:215-247 | While the counter has not moved since a state with no update in progress, none is in progress and no byte count has changed |
| `UpdateCounter.LastLoad` | model/base/tracked_objects.cc:296-343 | Every read that comes to loading the words has a last instant at which it loaded the counter in its loop, however often it had to start over |
| `UpdateCounter.LoadingIsAnchored` | model/base/tracked_objects.cc:296-343 | No update was in progress at that instant, and as long as the counter has not moved since, the words the reader holds are those of that instant, whichever it loads first |
| `UpdateCounter.ReadIsUntorn` | model/base/tracked_objects.cc:296-343 | No torn reads: in every run a returned value is the whole 64-bit count the field held when the reader last loaded the counter in its loop, with no update in progress, if fewer than 2^32 increments came after; how long the reader was kept waiting before does not matter |
| `TornRead.RunExists` | model/base/tracked_objects.cc:215-247 | There is a run in which a reader holds its high word while the owner records 2^32 - 1 bytes, 5 bytes and then nothing, n times |
| `TornRead.OneCall` | model/base/tracked_objects.cc:215-247 | A call of the owner in this run moves the counter on by exactly two, and with the owner idle only the count before or after is there |
| `TornRead.EmptyCalls` | model/base/tracked_objects.cc:215-247 | After j calls that record nothing the counter has moved on by 2j modulo 2^32 and the count is unchanged |
| `TornRead.TornAtFullWrap` | model/base/tracked_objects.cc:296-343 | With exactly 2^32 increments after the last load of the counter a read returns 4, which the count held at no instant since with no update in progress |
| `TornRead.ReadsUntornExactly` | model/base/tracked_objects.cc:296-343 | For every bound: all reads with at most that many increments after their last load of the counter return the count held at that load exactly if the bound is below 2^32 |
| `LazyInstance.InvStep` | model/base/lazy_instance.cc:16-51 | Every step of any thread keeps the protocol invariant: at most one thread between swap and store, the word tells how far creation is, registration at most once |
| `LazyInstance.WordMovesForward` | model/base/lazy_instance.h:139-162 | Over every run the word stays or goes from empty to creating, from creating to created, or, in more than one step, from empty to created; a created pointer never changes; creations and registrations are never undone |
| `LazyInstance.CreatedOnceAndShared` | model/base/lazy_instance.h:139-162 | Any two calls that return, at whatever times, return the same pointer, the only one the creator ever made, and the exit callback was registered at most once |
| `LazyInstance.RegisteredWhenQuiet` | model/base/lazy_instance.cc:39-51 | When no call is under way the creator has run exactly if some call returned, and the callback is registered exactly if one was asked for |
| `LazyInstance.SpinEndsByCreator` | model/base/lazy_instance.cc:22-36 | A spinning thread waits for exactly one other thread that is between its swap and its store, whose next two steps end the wait |
| `LazyResults.ResultsInvStep` | model/base/lazy_instance.cc:16-51 | With a creator that may return anything, every step of any thread keeps: the word follows the results so far, only the last of which may be other than 0 |
| `LazyResults.RunsAgainOnlyAfterNull` | model/base/lazy_instance.h:139-162 | On every run, whatever the creator returns, each of its results but the last is 0 |
| `LazyResults.RunsOnceExactly` | model/base/lazy_instance.h:139-162 | For every set of results the creator may return: it is run at most once on every run exactly if 0 is not among them |
| `LazyResults.NullResultRunsCreatorTwice` | model/base/lazy_instance.h:139-162 | A run in which it returns 0 and is run a second time |
| `LazyResults.SpinsForEverExactly` | model/base/lazy_instance.cc:22-36 | On every run, for every set of results the creator may still return, some other than 1 among them: a call that spins will spin whatever happens next exactly if the creator has returned 1 |
| `LazyResults.OneResultSpins` | model/base/lazy_instance.cc:39-51 | A run in which it returns 1 while another call waits for it |
| `LazyResults.AlwaysEndsExactly` | model/base/lazy_instance.cc:22-36 | For every set of results the creator may return, before and after: no call on any run comes to spin for ever exactly if 1 is not among them |
| `ThreadDataPool.SanitizeThreadName` | model/base/tracked_objects.cc:90-100 | The loop computes the name with its trailing digits replaced by a star |
| `ThreadDataPool.SanitizedExactly` | model/base/tracked_objects.cc:90-100 | For every name and the place where its trailing run of the characters 0 to 9 begins: the name itself if that is its end, otherwise the part before it and a star |
| `ThreadDataPool.KeptSplits` | model/base/tracked_objects.cc:90-100 | What is kept ends in no digit and everything cut off is a digit |
| `ThreadDataPool.SanitizedIsStable` | model/base/tracked_objects.cc:90-100 | A sanitized name ends in no digit and sanitizing it again changes nothing |
| `ThreadDataPool.Pool.Find` | model/base/tracked_objects.cc:1018-1037 | The walk stops at the first retired object of the name, or at the end if there is none |
| `ThreadDataPool.Pool.Take` | model/base/tracked_objects.cc:1016-1038 | The locked search is the search step of the step system: the first retired object of the name leaves the list and is held by the thread, or the thread has missed |
| `ThreadDataPool.Pool.CreateThreadData` | model/base/tracked_objects.cc:1041 | A new object of this name and incarnation, the creation step of the step system |
| `ThreadDataPool.Pool.InitializeThreadContext` | model/base/tracked_objects.cc:560-572 | By the steps of the step system: initialisation if it is due, and a thread without an object searches for its sanitized name, creates only if it missed, and binds; a worker-pool thread does nothing |
| `ThreadDataPool.Pool.Get` | model/base/tracked_objects.cc:575-587 | Nothing before thread-local storage is there; otherwise the object of the thread, registered as a worker if it has none |
| `ThreadDataPool.Pool.Unlink` | model/base/tracked_objects.cc:1032-1034 | Unlinking in place removes one object from the list and keeps the rest in order, links and all |
| `ThreadDataPool.Pool.OnThreadTerminationCleanup` | model/base/tracked_objects.cc:597-615 | The termination step of the step system: the object goes to the front of the list exactly if it is of this incarnation; its link was null before |
| `ThreadDataPool.Pool.EnsureTlsInitialization` | model/base/tracked_objects.cc:872-905 | Another incarnation unless tracking is initialised already, with the list left as it is |
| `ThreadDataPool.Pool.BreakApart` | model/base/tracked_objects.cc:972-976 | Empties the list and clears every link of it |
| `ThreadDataPool.Pool.ShutdownSingleThreadedCleanup` | model/base/tracked_objects.cc:959-983 | By the steps of the step system: initialisation, the next incarnation with no list, the slot of the caller cleared, and dormant |
| `ThreadDataPool.InvStep` | model/base/tracked_objects.cc:560-615 | Every step of any thread, search and creation, binding, termination, initialisation, shutdown, stores of the status, keeps: no object shared, list duplicate-free and disjoint from held objects, names as requested, none of this incarnation lost |
| `ThreadDataPool.PoolIsSafe` | model/base/tracked_objects.cc:560-615 | In every interleaving each object is held by at most one live thread, the retired list has no repeats and shares nothing with held ones, a held object has the name its thread asked for, and every object of the current incarnation is held or retired |
| `ThreadDataPool.RetiredIsOldExactly` | model/base/tracked_objects.cc:872-905 | In every run a retired object is of an earlier incarnation exactly if tracking was initialised again while it was on the list, which it has not left since |
| `ThreadDataPool.RetiredOfEarlierIncarnation` | model/base/tracked_objects.cc:959-983 | A run in which one is: a worker comes and goes between a shutdown and the next initialisation |
| `ThreadDataPool.CreatesOnlyWhenNeeded` | model/base/tracked_objects.cc:1017-1041 | A thread that goes on to create found no retired object of its name |
| `ThreadDataPool.RegisteredHolds` | model/base/tracked_objects.cc:560-587 | A thread that is registered is bound to an object of its name, one taken off the list if any there has the name, otherwise a new one of this incarnation with the list unchanged |
| `ThreadDataPool.EnsuredIsActive` | model/base/tracked_objects.cc:872-905 | Initialisation leaves tracking active and the list alone, and starts another incarnation exactly if it was not active |
| `ThreadDataPool.ClosedIsDormant` | model/base/tracked_objects.cc:959-983 | A shutdown leaves tracking dormant, the list empty, the thread without object, and no object of the incarnation |
| `ThreadDataPool.LastRetiredFirstTaken` | model/base/tracked_objects.cc:597-615 | The object retired last is the one a thread of its name takes next, and the list is then as before |
| `Bits.MaskDropsLowBits` | model/base/bits.h:52-55 | For every number of zeros and ones, and-ing with ones above zeros keeps exactly the greatest multiple of the power of two that is not above the word |
| `Bits.AlignToPowerOf2` | model/base/bits.h:52-55 | For every power of two the masked 64-bit sum is the multiple of it that is at or above the size and less than one alignment away, if the sum does not overflow |
| `PickleFormat.ReadUndoesWrite` | model/base/pickle.cc:31-208 | Reading the type of a value where it was written gives the value and stops right behind it, padding included |
| `PickleFormat.ReadUndoesSizedWrite` | model/base/pickle.cc:144-200 | So for strings, UTF-16 strings and data with their length prefix |
| `PickleFormat.Take` | model/base/pickle.cc:53-72 | A bounded read yields the next n bytes, those and no others, exactly if n is not negative, as many are left and there is a payload; it never moves outside the payload or backwards, and to the end if there are too few |
| `PickleFormat.TakeElements` | model/base/pickle.cc:74-82 | Yields count times size bytes, the next ones, exactly if the product fits an int, as many are left and there is a payload; otherwise nothing, and a product that does not fit moves nowhere |
| `PickleFormat.FieldLayout` | model/base/pickle.cc:469-475 | A field in the payload is its bytes followed by zeros, fewer than four of them, up to a whole word |
| `PickleFormat.FixedLayout` | model/base/pickle.h:225-245 | Each byte of a fixed-size value: those of its number, in two's complement, least significant first, then zeros; a bool takes a word |
| `PickleFormat.SizedLayout` | model/base/pickle.cc:329-346 | Each byte of a string or of data: a word that counts the bytes, the bytes, then zeros |
| `PickleFormat.UnitsLayout` | model/base/pickle.cc:336-342 | So for UTF-16: a word that counts the units, then each unit least significant byte first |
| `PickleFormat.FixedReadExactly` | model/base/pickle.cc:31-61 | Of any payload a fixed-size read succeeds exactly if there is a payload with as many bytes left as the type takes in memory, one for a bool, and moves on by whole words or to the end |
| `PickleFormat.ReadAllUndoesWrites` | model/base/pickle.cc:31-208 | For every sequence of values, reading their types in order from the canonical payload gives back every value and ends exactly at its end |
| `Pickle.GrownIsEnough` | model/base/pickle.cc:454-460 | The grown capacity holds what was asked for, is a multiple of the payload unit and never smaller than before |
| `Pickle.GrownDoubles` | model/base/pickle.cc:454-460 | Growing at least doubles the capacity but for one payload unit, fills whole heap pages but for one unit when it is large, and never goes beyond that or what was asked for by more than a page |
| `Pickle.Pickle.ClaimUninitializedBytesInternal` | model/base/pickle.cc:444-467 | Claims aligned space at the write offset, grows the buffer if needed, keeps the earlier payload and zeroes the padding |
| `Pickle.Pickle.ClaimBytes` | model/base/pickle.cc:386-391 | Claims zero-filled space in one piece |
| `Pickle.Pickle.WriteBytesCommon` | model/base/pickle.cc:469-475 | Appends the bytes zero-padded to four and leaves what was there |
| `Pickle.Pickle.WriteBool` | model/base/pickle.h:225-227 | Appends the canonical form of a bool, an int of 0 or 1 |
| `Pickle.Pickle.WriteInt` | model/base/pickle.h:228-230 | Appends the canonical form of an int |
| `Pickle.Pickle.WriteLong` | model/base/pickle.h:231-235 | Appends the canonical form of a long as 64 bits |
| `Pickle.Pickle.WriteInt64` | model/base/pickle.h:238 | Appends the canonical form of a 64-bit integer |
| `Pickle.Pickle.WritePod` | model/base/pickle.h:366-370 | Appends the canonical form of a fixed-size value |
| `Pickle.Pickle.WriteString` | model/base/pickle.cc:329-334 | Appends length and text in canonical form |
| `Pickle.Pickle.WriteString16` | model/base/pickle.cc:336-342 | Appends length and units in canonical form |
| `Pickle.Pickle.WriteData` | model/base/pickle.cc:344-346 | Appends length and bytes in canonical form |
| `Pickle.Pickle.Write` | model/base/pickle.cc:329-351 | Every typed write appends exactly the canonical form of its value |
| `Pickle.Pickle.WriteAll` | model/base/pickle.cc:329-351 | A sequence of writes appends the concatenation of the canonical forms |
| `Pickle.Pickle.Reserve` | model/base/pickle.cc:353-363 | Changes capacity only, and only if there is too little, then to more than twice as much; the payload, its size and the write offset stay |
| `Pickle.Pickle.Resize` | model/base/pickle.cc:378-384 | Reallocates to the capacity rounded up to 64 and keeps the payload |
| `Pickle.Pickle.constructor` | model/base/pickle.cc:254-263 | A new pickle is empty and valid |
| `Pickle.Pickle.WithHeader` | model/base/pickle.cc:265-274 | So with a larger header |
| `Pickle.Pickle.Copy` | model/base/pickle.cc:295-302 | A copy has its own buffer and the same payload |
| `Pickle.Pickle.Assign` | model/base/pickle.cc:309-327 | After assignment the payload is the other pickle's, in a buffer of its own; self-assignment changes nothing |
| `PickleReader.OpenExactly` | model/base/pickle.cc:276-293 | For arbitrary bytes the read-only constructor accepts exactly those whose stored payload size leaves a positive whole number of words in front |
| `PickleReader.RefusedGivesNothing` | model/base/pickle.cc:276-293 | From refused data no read of any type gives anything, not even one of no bytes |
| `PickleReader.FindNextExactly` | model/base/pickle.cc:400-434 | Of any bytes the end of a pickle is found exactly if the header is there and so is all that its size field says |
| `PickleReader.ImageReadsBack` | model/base/pickle.cc:276-293 | For every sequence of values a pickle image opens exactly if its size fits an int, and then reads back every value and ends at the payload size |
| `PickleReader.PickleIterator.Advance` | model/base/pickle.cc:43-50 | Moves by the aligned size, or to the end if less is left |
| `PickleReader.PickleIterator.GetReadPointerAndAdvance` | model/base/pickle.cc:63-72 | As the bounded read of the format |
| `PickleReader.PickleIterator.GetElementsAndAdvance` | model/base/pickle.cc:74-82 | As the bounded read of elements of the format |
| `PickleReader.PickleIterator.ReadBuiltinType` | model/base/pickle.cc:31-41 | As the fixed-size read of the format |
| `PickleReader.PickleIterator.ReadSizedType` | model/base/pickle.cc:144-200 | As the length-prefixed read of the format |
| `PickleReader.PickleIterator.ReadBytes` | model/base/pickle.cc:202-208 | As the read of a given number of bytes of the format |
| `PickleReader.PickleIterator.Read` | model/base/pickle.cc:84-208 | Each typed read is the format's read of that type |
| `PickleReader.PickleIterator.ReadTypes` | model/base/pickle.cc:84-208 | Reads in sequence, stopping at the first failure, are the format's |
| `PickleReader.PickleIterator.ReadLength` | model/base/pickle.h:72-74 | Succeeds exactly with a non-negative int |
| `PickleReader.PickleSizer.AddAll` | model/base/pickle.cc:210-246 | The predicted size of a sequence of values is the length of their canonical payload |
| `PickleReader.FindNextFindsImage` | model/base/pickle.cc:400-434 | Looking for the end of a pickle in a longer buffer finds it exactly when the whole pickle is there |
| `PickleReader.Replay` | model/base/pickle.cc:254-363 | Under any mix of writes, reserves, copies and assignments, also onto pickles with a payload of their own, a pickle's payload is the canonical payload of the writes alone, whatever the allocation history |
| `PickleReader.WriteImage` | model/base/pickle.cc:254-351 | For all values whose payload fits the 32-bit size field, the bytes of a pickle written from empty are the header followed by the canonical payload, of the size predicted |
| `PickleReader.LargePayload` | model/base/pickle.cc:276-293 | There are values whose pickle is refused: a payload between 2^31 and 2^32 bytes |
| `PickleReader.WriteThenRead` | model/base/pickle.cc:31-351 | For all such values, writing them to an empty pickle, opening its bytes read-only and reading the same types gives the same values and ends at the end exactly if there are none or the pickle is shorter than 2^31 bytes; otherwise nothing is read |
| `BlockHash.ZeroCountIsUnique` | model/base/md5.cc:226-249 | The number of zeros after the one bit is the only one below a block that leaves room for exactly the length field |
| `BlockHash.Rotate7` | model/base/md5.cc:58-61 | For every word, two shifts joined by "or" are seven single circular shifts; so for each of the 31 numbers of places, one lemma each |
| `BlockHash.LittleWordIsLowOrderFirst` | model/base/md5.cc:38-48 | Four octets in the memory of a little-endian host are the word the standards read from them, low-order octet first |
| `BlockHash.OctetsAreDigits` | model/base/md5.cc:257-260 | The octets of a word in memory are its digits to the base 256 |
| `Md5.F1IsF` | model/base/md5.cc:52-53 | The optimised F1 is the F of section 3.4 of RFC 1321 |
| `Md5.F2IsG` | model/base/md5.cc:54 | F2 is the G of section 3.4 of RFC 1321 |
| `Md5.F4IsI` | model/base/md5.cc:56 | F4 is the I of section 3.4 of RFC 1321 |
| `Md5.StepMatches` | model/base/md5.cc:58-61 | One step macro, its sum, its shifts and its addition, is one operation of section 3.4 of RFC 1321, whose circular shift and sums have their own definitions, on rotated registers |
| `Md5.FourSteps` | model/base/md5.cc:75-78 | Four consecutive lines, with the rotation counts of the source, are four operations of section 3.4 of RFC 1321 |
| `Md5.Round1` | model/base/md5.cc:75-90 | The sixteen unrolled lines are operations 1 to 16 of section 3.4 of RFC 1321 |
| `Md5.Round2` | model/base/md5.cc:92-107 | Likewise operations 17 to 32 |
| `Md5.Round3` | model/base/md5.cc:109-124 | Likewise operations 33 to 48 |
| `Md5.Round4` | model/base/md5.cc:126-141 | Likewise operations 49 to 64 |
| `Md5.Transform` | model/base/md5.cc:67-147 | The transform is the standard's compression of one block |
| `Md5.LoadedIsWords` | model/base/md5.cc:67-73 | The block as the host reads it is the sixteen words of section 3.4 of RFC 1321 |
| `Md5.MemoryOfRegs` | model/base/md5.cc:257-260 | The state words in memory are the digest octets of section 3.5 of RFC 1321 |
| `Md5.CountUpCountsBits` | model/base/md5.cc:175-181 | The two count words with their carry count eight times the octets, losing 2^64 at each overflow of the pair |
| `Md5.CountFieldIsLength` | model/base/md5.cc:250-256 | The count words in memory are the length field of section 3.2 of RFC 1321 |
| `Md5.Context.Init` | model/base/md5.cc:157-165 | An empty message |
| `Md5.Context.ByteReverse` | model/base/md5.cc:38-48 | Leaves a little-endian buffer as it is |
| `Md5.Context.Update` | model/base/md5.cc:171-215 | Extends the message by the data: whole blocks are hashed, the rest is buffered, for every fill level and length |
| `Md5.Context.PadToLength` | model/base/md5.cc:226-249 | The one bit and the zeros, over one or two blocks |
| `Md5.Context.Final` | model/base/md5.cc:221-262 | The digest is that of the whole message by sections 3.1 to 3.5 of RFC 1321 |
| `Md5.Context.Wipe` | model/base/md5.cc:261 | The context is zeroed |
| `Md5.Context.IntermediateFinal` | model/base/md5.cc:264-270 | The digest so far, and the context is unchanged, so later digests are unaffected |
| `Md5.HashChunks` | model/base/md5.cc:286-291 | For every way of splitting a message into chunks, one update per chunk and a final give the digest of the message |
| `Sha1.FMatchesStandard` | model/base/sha1.cc:68-78 | The function of each round is Ch, Parity or Maj of FIPS 180-3 section 4.1.1 |
| `Sha1.MixedMatches` | model/base/sha1.cc:167-169 | The expansion of the schedule rotates the exclusive or of four words by one place, as FIPS 180-3 section 6.1.2 step 1 |
| `Sha1.TempMatchesRound` | model/base/sha1.cc:179-186 | The sum of a round, with the constants and functions of the source, is that of FIPS 180-3 section 6.1.2 |
| `Sha1.ByteSwapIsBigEndian` | model/base/sha1.cc:164-165 | Swapping a little-endian word gives the big-endian word of its octets |
| `Sha1.SecureHashAlgorithm.Init` | model/base/sha1.cc:98-111 | An empty message |
| `Sha1.SecureHashAlgorithm.Expand` | model/base/sha1.cc:164-169 | The schedule of FIPS 180-3 section 6.1.2 step 1, built in the storage of the block itself |
| `Sha1.SecureHashAlgorithm.Run` | model/base/sha1.cc:179-186 | Eighty rounds of FIPS 180-3 section 6.1.2 step 3 |
| `Sha1.SecureHashAlgorithm.Process` | model/base/sha1.cc:155-196 | Hashes the buffered block, though the buffer is overwritten, and starts the next |
| `Sha1.SecureHashAlgorithm.Update` | model/base/sha1.cc:121-129 | Extends the message by the data |
| `Sha1.SecureHashAlgorithm.Pad` | model/base/sha1.cc:131-153 | The padding of FIPS 180-3 section 5.1.1 with the length modulo 2^64 |
| `Sha1.SecureHashAlgorithm.Final` | model/base/sha1.cc:113-119 | The digest of the whole message by FIPS 180-3 section 6.1 |
| `Sha1.HashChunks` | model/base/sha1.cc:198-212 | For every way of splitting a message into chunks, updates and a final give the digest of the message |
| `ObserverList.ObserverListBase.AddObserver` | model/base/observer_list.h:272-280 | Appends unless present |
| `ObserverList.ObserverListBase.RemoveObserver` | model/base/observer_list.h:282-294 | Nulls the first match during an iteration, erases it otherwise |
| `ObserverList.ObserverListBase.HasObserver` | model/base/observer_list.h:296-304 | Finds exactly the observers in the vector |
| `ObserverList.ObserverListBase.Clear` | model/base/observer_list.h:306-316 | Nulls every entry during an iteration, empties otherwise |
| `ObserverList.ObserverListBase.Compact` | model/base/observer_list.h:318-322 | In place, keeps exactly the non-null entries in order |
| `ObserverList.Iter.EnsureValidIndex` | model/base/observer_list.h:261-270 | Stops at the first non-null entry or at the end |
| `ObserverList.Iter.Increment` | model/base/observer_list.h:223-232 | Moves past the current entry to the next non-null one; past an end one index further, nothing if detached |
| `ObserverList.Iter.GetCurrent` | model/base/observer_list.h:252-259 | The entry at the index, none at the end or when detached |
| `ObserverList.Iter.Equals` | model/base/observer_list.h:207-214 | Equal exactly if both are ends or list and index are the same; an end differs from a non-end with the same limit |
| `ObserverList.Iter.Destroy` | model/base/observer_list.h:200-205 | Leaves the iteration, and the last one to leave drops the null entries |
| `ObserverList.BeginIteration` | model/base/observer_list.h:130-136 | Counts itself in unless the vector is empty |
| `ObserverList.StepKeeps` | model/base/observer_list.h:188-322 | Every operation of any nesting keeps the vector a representation of a registry of numbered registrations, the depth equal to the iterations under way, and no null entry outside iterations |
| `ObserverList.RunsAreHistories` | model/base/observer_list.h:188-322 | Over every run of adds, removes, clears, begins, advances and ends in any nesting, all that callers see, membership, each iterator's current observer and whether it is at its end, is what the registry says |
| `ObserverList.EntriesArePlainList` | model/base/observer_list.h:272-322 | After any run the non-null entries are the list the same adds, removes and clears would build with no iteration, and when the depth is 0 there are no null entries |
| `ObserverList.NeverBack` | model/base/observer_list.h:223-232 | An iterator moves only forward, so it visits no registration twice |
| `ObserverList.StopsAtLive` | model/base/observer_list.h:261-270 | An iterator skips only registrations that are not live at that moment and stops only at live ones |
| `ObserverList.PassedWasVisited` | model/base/observer_list.h:188-270 | Every registration behind an iterator was visited by it, or was not live when the iterator went past |
| `ObserverList.VisitsExistingOnly` | model/base/observer_list.h:188-198 | With NOTIFY_EXISTING_ONLY nothing registered after the iteration began is visited; otherwise there is no limit |
| `ObserverVisits.StayingIsVisitedOnce` | model/base/observer_list.h:188-322 | In every run of the list, however nested, an observer that is on it from before an iteration begins until that iteration reaches its end is visited by it exactly once |
| `ObserverVisits.NewcomerIsVisitedOnce` | model/base/observer_list.h:188-322 | Under NOTIFY_ALL so is one that comes on the list during the iteration and stays until its end |
| `ObserverVisits.OnlyExistingVisited` | model/base/observer_list.h:188-270 | Under NOTIFY_EXISTING_ONLY whoever is visited has been on the list without a break since before the iteration began |
| `ObserverVisits.VisitorAttached` | model/base/observer_list.h:130-136 | An iteration is under way, until it is ended, exactly if the vector was not empty when it began |
| `RunLoop.RunLoop.BeforeRun` | model/base/run_loop.cc:247-274 | Takes the begin step of the step system and, if nested, the running step; returns true exactly if the loop was pushed |
| `RunLoop.RunLoop.Quit` | model/base/run_loop.cc:140-157 | Takes the quit step, and tells the delegate exactly when the step system says so |
| `RunLoop.RunLoop.AfterRun` | model/base/run_loop.cc:276-291 | Takes the end step, and tells the delegate exactly when the step system says so; the loop ended is the topmost one |
| `RunLoop.InvStep` | model/base/run_loop.cc:247-291 | Every step keeps each loop on the stack at most once, every loop there run, and every running loop there, so that the topmost loop exists whenever a loop runs |
| `RunLoop.StackIsLoopsUnderWay` | model/base/run_loop.cc:247-291 | After every run of events the stack is exactly the loops pushed and not ended, in the order they were pushed |
| `RunLoop.DeferredQuit` | model/base/run_loop.cc:276-291 | A quit of a loop that was not topmost reaches the delegate when the loop becomes topmost again |
| `RunLoop.ToldExactly` | model/base/run_loop.cc:140-157 | In every run an event tells the delegate exactly if it leaves the topmost loop quit and either ended the loop above or was the quit of this loop while running; with no loop on the stack the delegate is never told |
| `RunLoop.BegunOnce` | model/base/run_loop.cc:247-260 | In every run each loop is begun at most once, also one that had been quit before |
| `RunLoop.QuitFirstNeverRuns` | model/base/run_loop.cc:247-260 | A loop quit before it is begun never comes on the stack |
| `RunLoop.StartedRuns` | model/base/run_loop.cc:247-274 | After BeforeRun the loop counts as run, and it is on top of the stack and running exactly if it had not been quit |
| `RunLoop.QuitDeliveredExactly` | model/base/run_loop.cc:140-157 | In every run, for a topmost loop: the delegate has been told since the loop became topmost exactly if some quit of it, made while it was on the stack, was made when it was not topmost or was running, or another loop ran on top of it afterwards |
| `RunLoop.NoQuitLost` | model/base/run_loop.cc:140-157 | With nesting observers that neither quit nor run loops, a topmost running loop that was quit has had the delegate told since it last became topmost |
| `RunLoop.ObserverQuitIsLost` | model/base/run_loop.cc:255-271 | An observer that quits the loop about to start: the loop runs with its quit flag set and the delegate is never told |
| `Stopwatch.TaskStopwatch.Start` | model/base/tracked_objects.cc:1067-1092 | Becomes the innermost stopwatch of its thread, with consistent parent and child links; without thread data only its own time is kept |
| `Stopwatch.TaskStopwatch.Stop` | model/base/tracked_objects.cc:1094-1125 | Leaves the stack and charges its wall-clock time to its parent; the checks on the links hold; without thread data only its own time is kept |
| `Stopwatch.DurationsBalance` | model/base/tracked_objects.cc:1067-1141 | Conservation over any run of starts and stops: reported durations equal the wall-clock times of the roots plus what is excluded from those still running |
| `Stopwatch.WholeRunBalances` | model/base/tracked_objects.cc:1067-1141 | From the beginning of every run the reported durations add up to the wall-clock times of the roots and what is excluded from those still running |
| `Stopwatch.RunTree` | model/base/tracked_objects.cc:1067-1125 | Running any tree of nested stopwatches, inside whatever is running, reports the tree's durations and charges its wall-clock time outside |
| `Stopwatch.TreeAddsUp` | model/base/tracked_objects.cc:1135-1141 | For every tree the reported durations over it add up to the wall-clock time of its root |
| `Stopwatch.DurationNonNegativeExactly` | model/base/tracked_objects.cc:1067-1141 | In every run with a clock that never goes back, whatever is still running, a reported duration is non-negative exactly if, by the events alone, timing was on at its start and stop or nothing nested directly in it took any time |
| `Stopwatch.OwnDurationExactly` | model/base/tracked_objects.cc:1094-1141 | For every tree under such a clock the duration of its root is non-negative exactly if timing was on at its start and stop or none of the stopwatches nested directly in it took any time |
| `Stopwatch.NoneNegativeExactly` | model/base/tracked_objects.cc:1067-1141 | Running any tree, inside whatever is running, no stopwatch of it reports a negative duration exactly if that holds of every stopwatch in the tree |
| `Stopwatch.ToggledTimingGoesNegative` | model/base/tracked_objects.cc:1094-1104 | A tree with timing turned on inside an untimed stopwatch reports a negative duration |
| `DeathData.DeathData.RecordDurations` | model/base/tracked_objects.cc:171-213 | Keeps count, sums, maxima and sample of the history up to date, with the counters saturating and the sums wrapping |
| `DeathData.DeathData.OnProfilingPhaseCompleted` | model/base/tracked_objects.cc:249-282 | Starts a new phase and keeps the totals of the old one |
| `DeathData.DeathData.Snapshot` | model/base/tracked_objects.cc:825-845 | The walk lists, newest first, for each phase with a positive count exactly that phase's count, sums, maxima and sample |
| `DeathData.DeltaIsPhase` | model/base/tracked_objects.cc:446-456 | Subtracting the previous snapshot leaves the totals of the phase alone |
| `DeathData.WalkIsExpected` | model/base/tracked_objects.cc:832-843 | For every history of deaths and phase ends the chain of snapshots gives back the totals of each phase |
| `DeathData.MaxIsGreatest` | model/base/tracked_objects.cc:191-196 | The maximum is at least zero and every duration, and is zero or one of them |
| `DeathData.Sampled` | model/base/tracked_objects.cc:206-212 | The sample is one of the durations recorded in the phase |
| `DeathData.CountsAddUp` | model/base/tracked_objects.cc:832-843 | The counts of the phases add up to the cumulative count, saturated or not |
| `DeathData.CountExactly` | model/base/tracked_objects.cc:175-176 | A phase's count is the number of its deaths exactly if the cumulative count did not pass INT_MAX |
| `DeathData.SumExactly` | model/base/tracked_objects.cc:185-189 | A phase's sums are right exactly if they fit 32 bits, whatever the running totals did |
| `DeathData.ListsPhasesWithDeaths` | model/base/tracked_objects.cc:838-842 | Without saturation the phases listed are exactly those with deaths |
| `PathService.Service.Get` | model/base/path_service.cc:183-233 | The answer and the new cache, through the walk over the providers |
| `PathService.Service.OverrideAndCreateIfNeeded` | model/base/path_service.cc:243-280 | Stores an absolute path and empties the cache, or fails and changes nothing |
| `PathService.Service.RemoveOverride` | model/base/path_service.cc:283-299 | Removes the override and empties the cache if there was one |
| `PathService.Service.RegisterProvider` | model/base/path_service.cc:302-331 | Puts the provider in front |
| `PathService.Service.DisableCache` | model/base/path_service.cc:334-341 | Empties and disables the cache |
| `PathService.GetKeeps` | model/base/path_service.cc:183-233 | With a coherent cache Get answers what an uncached lookup would and keeps the cache coherent; the current directory is never cached |
| `PathService.RegisterKeepsExactly` | model/base/path_service.cc:302-331 | Registering a provider keeps the cache coherent exactly if it changes the answer for no cached key |
| `PathService.RegisterKeeps` | model/base/path_service.cc:302-331 | Which a provider answering only in a key range of its own never does |
| `PathService.CacheIsInvisible` | model/base/path_service.cc:151-341 | Over every run of calls that do not overlap, every answer is the one given with the cache disabled |
| `PathService.AnswersAt` | model/base/path_service.cc:151-341 | The i-th answer of a run is that of its call in the state all the calls before leave |
| `PathService.AnswerIsCached` | model/base/path_service.cc:194-230 | With the cache on an answered call leaves its answer in the cache and changes nothing else, and the next call for the key has that answer whatever overrides and providers then are |
| `PathService.NothingIsCached` | model/base/path_service.cc:228-230 | With the cache off nothing is stored and every call looks up anew |
| `PathService.OverrideExactly` | model/base/path_service.cc:243-280 | An override succeeds exactly if the directory is there, where asked for, and the path is absolute or can be made so; its key is then answered with the absolute path, the other overrides stay; otherwise nothing changes |
| `PathService.OverrideAndRemove` | model/base/path_service.cc:243-299 | Removing an override undoes it but for the cache |
| `PathService.ApartExactly` | model/base/path_service.cc:319-327 | The collision check passes exactly if no key is in the ranges of two providers |
| `PathService.AskIsFirst` | model/base/path_service.cc:210-215 | The walk over the providers ends with the first one that answers, and has its answer |
| `PathService.FoundIsSafe` | model/base/path_service.cc:217-226 | A path from a provider that references a parent is never answered as it is, only made absolute; the lookup fails exactly for an empty path or one that cannot be made so |
| `PathOverlap.InvStep` | model/base/path_service.cc:183-341 | Every step of any number of overlapping calls, the three parts of each Get apart, keeps what a pending Get found true of the providers and overrides it saw |
| `PathOverlap.OlderAnswer` | model/base/path_service.cc:208-215 | A walk from an earlier head of the provider list answers a key in the range of one of its providers as the whole list would |
| `PathOverlap.StoreExactly` | model/base/path_service.cc:228-230 | A store made after dropping the lock leaves its key stale exactly if the overrides changed the answer meanwhile, and no other key either way |
| `PathOverlap.StoreKeepsCoherentExactly` | model/base/path_service.cc:228-230 | In every run a store keeps the cache coherent exactly if the cache is off or an override of the key says the path found, or there is none and the providers answer under the present overrides as under those seen at the walk |
| `PathOverlap.UndisturbedStaysCoherent` | model/base/path_service.cc:183-341 | In every run in which no override or removal succeeds while some Get is between its locks the cache is coherent in every state; registering, other Gets and switching the cache off never matter |
| `PathOverlap.UndisturbedAnswers` | model/base/path_service.cc:183-230 | There every Get that is answered, at its first lock or its second, is answered what an uncached lookup would at that moment |
| `PathOverlap.UndisturbedWalk` | model/base/path_service.cc:208-226 | There a Get that has to ask the providers finds a path, and which, or fails exactly as an uncached lookup would have at its first lock |
| `PathOverlap.WalkIsCurrentExactly` | model/base/path_service.cc:208-226 | That is also what one would at the time of its walk exactly if a provider of the first lock has the key in its range or those registered since have no path for it |
| `PathOverlap.RegisterBetweenLocks` | model/base/path_service.cc:203-215 | A run in which a provider registered in between is not asked, and the Get fails |
| `PathOverlap.StaleIsAnswered` | model/base/path_service.cc:194-230 | In every run a stale path is what each lookup of its key is answered with, until an override or removal succeeds, the cache is switched off, or another pending Get stores that key |
| `PathOverlap.ClearingEndsStale` | model/base/path_service.cc:243-341 | A successful override or removal, or switching the cache off, leaves no key stale |
| `PathOverlap.OverrideBetweenLocks` | model/base/path_service.cc:204-230 | A run in which an override between the two locks leaves the old path in the cache, and the next lookup is answered with it |
| `CommandLine.CommandLine.AppendSwitchNative` | model/base/command_line.cc:335-357 | Inserts the switch at the divider and records its value |
| `CommandLine.CommandLine.AppendSwitchesAndArguments` | model/base/command_line.cc:74-99 | To whatever the line holds, switches and arguments are added each in their own order, switches before all arguments, nothing after the terminator taken for a switch |
| `CommandLine.CommandLine.InitFromArgv` | model/base/command_line.cc:268-275 | The line is a function of argv alone |
| `CommandLine.SwitchExactly` | model/base/command_line.cc:46-71 | An argument is a switch exactly if it has two characters or more, begins with a dash and is not two dashes; its name goes up to the first equals sign and its value from there on; its key is the name without one or two dashes |
| `CommandLine.ParseExactly` | model/base/command_line.cc:74-99 | The switches are those before the first bare --, in order; the arguments are the others before it, then everything from it on |
| `CommandLine.BareNameReadsBack` | model/base/command_line.cc:335-357 | A switch appended by a bare name is written with two dashes and reads back with that name and value |
| `CommandLine.ValuesAreLast` | model/base/command_line.cc:344-349 | The value found for a key is that of its last switch |
| `CommandLine.ValuesOnlyGiven` | model/base/command_line.cc:344-349 | Only keys given are found |
| `CommandLine.StableSwitchAgain` | model/base/command_line.cc:57-71 | A switch with a value, or with a name that is more than its prefix and ends in no space, is read back as written |
| `CommandLine.UnstableSwitchAgain` | model/base/command_line.cc:335-357 | Any other is not |
| `CommandLine.ReparseIsIdentityExactly` | model/base/command_line.cc:74-99 | For every argv, initialising from the line's own argv gives the same argv, divider and switch map exactly if every switch is of that kind |
| `CommandLine.EmptySwitchIsLost` | model/base/command_line.cc:57-71 | An argv with the switch --= does not come back |
| `Strings.TrimIsTrimmed` | model/base/strings/string_util.cc:294-328 | Trimming leaves no white space at either end and brings in no new character |
| `Strings.TrimIsSlice` | model/base/strings/string_util.cc:294-328 | What is left is a slice without white space at its ends, and everything before and behind it is white space |
| `Strings.SpacesAre` | model/base/strings/string_util_constants.cc:45-53 | White space is the six ASCII characters 9 to 13 and 32 |
| `Strings.TrimAgain` | model/base/strings/string_util.cc:294-328 | Trimming a trimmed string changes nothing |
| `FeatureList.FeatureList.GetFeatureOverrides` | model/base/feature_list.cc:182-214 | The two lists print each override once, in some order, in the list of its state |
| `FeatureList.FeatureList.InitializeFromCommandLine` | model/base/feature_list.cc:83-94 | The state after reading both lists into whatever is registered already |
| `FeatureList.ReadIntoExactly` | model/base/feature_list.cc:83-94 | For every name: what was registered before stays; otherwise the first entry of the name in the disabled list decides, whatever the enabled list says; otherwise the first in the enabled list; nothing else is registered |
| `FeatureList.EntryExactly` | model/base/feature_list.cc:339-376 | A piece is a name, with a star in front for the default, and behind < a trial that counts exactly if it is known |
| `FeatureList.FeatureList.RegisterOverridesFromCommandLine` | model/base/feature_list.cc:339-356 | Each non-empty trimmed piece registers a name, a state and a trial that resolves |
| `FeatureList.FeatureList.RegisterOverride` | model/base/feature_list.cc:358-376 | A star means the default; an existing override stays |
| `FeatureList.ListingReadsBack` | model/base/feature_list.cc:182-214 | Reading a printed list gives back its pieces, trimmed and without empty ones |
| `FeatureList.EntryOfPiece` | model/base/feature_list.cc:339-376 | A printed entry is read as the override it was printed from |
| `FeatureList.PrintedReadsBackExactly` | model/base/feature_list.cc:182-214 | For every override map with valid names and resolvable trials, in whatever order it was printed, reading the two lists into a fresh list rebuilds state and trial of every feature exactly if each printed entry is non-empty and has no white space at its ends |
| `FeatureList.CleanNamesRoundTrip` | model/base/feature_list.cc:182-214 | So it does when names are non-empty and names and trials have no surrounding spaces |
| `FeatureList.TrailingSpaceIsLost` | model/base/feature_list.cc:182-214 | A valid name that ends in a space, printed alone, is not read back |
| `RandUtil.RandGenerator` | model/base/rand_util.cc:52-67 | The first acceptable draw decides, and its remainder is below the range |
| `RandUtil.ResultsEquallyLikely` | model/base/rand_util.cc:52-67 | For every range each result comes from exactly the same number of acceptable draws |
| `RandUtil.HalfAccepted` | model/base/rand_util.cc:58-64 | For every range at least half of all 64-bit draws are acceptable |
| `RandUtil.RangeCounts` | model/base/rand_util.cc:22 | The wrapped unsigned arithmetic counts the values from min to max |
| `RandUtil.RandInt` | model/base/rand_util.cc:19-30 | The result lies between min and max |
| `RandUtil.IntsEquallyLikely` | model/base/rand_util.cc:19-30 | Every int between min and max comes from the same number of acceptable draws |
| `Version.CompareVersionComponents` | model/base/version.cc:55-76 | The loops return the lexicographic order of the zero-extended versions, 0 exactly for the same |
| `Version.Trichotomy` | model/base/version.cc:55-76 | Exactly one of less, same and greater, and swapping the sides swaps the sign |
| `Version.Transitive` | model/base/version.cc:55-76 | The order is transitive, strictly so if either part is strict |
| `Version.SameCompareAlike` | model/base/version.cc:55-76 | Versions that differ in trailing zeros only compare alike with everything |
| `Version.CompareToWildcard` | model/base/version.cc:112-147 | Returns 0 exactly if the wildcard's numbers are the first components of the zero-extended version, otherwise the plain comparison |
| `Version.WildcardIsMonotone` | model/base/version.cc:112-147 | A greater version never compares smaller with the same wildcard |

## Left out

- The ns-3 side (simulation scripts, helpers, `model/quic-*`): glue and fixed-width header fields around a QUIC stack that is not there.
- Base64, bind and callback machinery, logging, system information: third-party code, type machinery or operating-system calls.
- Windows and big-endian branches, and the 64-bit branch of the byte counts, where a count is one atomic word.
- Weak memory orders: every atomic access is one step under sequential consistency.
- LazyInstance: `OnExit`, which runs after the callers are gone; the nested-thread restriction checks.
- ThreadDataPool: the list of all `ThreadData`, which only grows at its head; deletion in the shutdown that does not leak.
- Pickle: attachments; allocation failure.
- Pickle.Pickle.Resize: capacities up to 16 GiB, beyond which no operation asks for more, the payload size being 32 bits wide.
- Pickle.Pickle.Copy: copies of a pickle that was opened read-only, whose write offset the source leaves at 0.
- Pickle.Pickle.Assign: assignment to or from a pickle that was opened read-only, likewise.
- PickleReader.PickleIterator.Read: the iterator works on the payload as it was when the iterator was made; later writes to the same pickle are not followed.
- Bits: `Log2Floor` and `Log2Ceiling`, which nothing here uses; sizes at the very top of the address range, where the sum in `Align` overflows.
- Md5: hexadecimal digests.
- ObserverList: copied iterators; a list destroyed while it is iterated; overflow of the depth counter.
- RunLoop: quits posted from other threads, quitting when idle, and `DisallowNesting`.
- RunLoop.RunLoop.BeforeRun: the class has no nesting observers; what they may do between the push and the running mark is in the step system only.
- DeathData.DeathData.RecordDurations: durations are taken to fit 32-bit milliseconds; the memory fields are in `UpdateCounter`.
- DeathData.DeathData.Snapshot: calls that overlap in time; the tally of objects still alive, which subtracts birth counts.
- DeathData.DeltaIsPhase: the subtraction of sums is taken to wrap, where C++ leaves signed overflow undefined.
- PathService.CacheIsInvisible: providers are functions of the key and the overrides, and the file system does not change; providers that call back into `Get` are not modelled. Calls that overlap are in `PathOverlap`.
- FeatureList: shared-memory entries, the `overridden_by_field_trial` flag and the feature identity check; names are strings without the ASCII check.
- Version: parsing and printing of version strings.
- Version.CompareToWildcard: starts from the numbers before the wildcard; a string without a wildcard is parsed and compared plainly.
- RandUtil.RandGenerator: the draws are given as a finite sequence, so the loop ends when they run out.
- Statistical quality of random numbers and strength of the hashes.
