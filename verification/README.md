# Warren VPN: verified models

Dafny models of seven parts of the Warren VPN repository, each with the laws its code is written for.
`dafny verify dfyconfig.toml` checks everything.

Code that changes fields step by step is modelled twice: a class or a method with loops in the source's own
form, and a function on values that it is proved to compute; `Options` holds the option type they share. The
laws are lemmas about the functions, over every input, every run or every reachable state.

**Operation scheduler** (`Lifecycle`, `LifecycleProofs`, `AsyncOperation`, `Exclusivity`, `Scheduler`,
`SchedulerProofs`, `ExclusionTheorems`, `CategoryExclusion`, `OperationTheorems`, `ProgressTheorems`,
`DeadlockTheorems`, `ConditionTheorems`, `ResultOperation`). A transition system with one step per critical
section, a FIFO queue of blocks per operation and one list of operations per exclusivity category; any number
of operations, categories, conditions and observers, in any interleaving. Assumptions, all visible in the
model: the operation's dispatch queue is serial; each operation is enqueued once; `finish` is called only
after `_start`; key-value observing reports every change. What the base class answers for `super.isReady` is
the predicate `SuperReady`. The record `Mode` says whether it forgets the dependencies of a cancelled
operation, whether clients cancel operations that still wait, and whether clients depend only on operations
already given to a queue. Exclusion is proved to hold in exactly the modes where cancelling cannot let an
operation overtake its dependencies, and a three-operation run shows the failure in all others; within one
category, order is kept along every run that cancels none of its own waiting operations, whatever happens to
the rest. Likewise, every reachable state at rest has all registered operations finished in exactly the modes
where clients depend on earlier operations only; in the others, an operation told to depend on a later one of
its own category makes a cycle with the exclusivity edge. Left to itself, the system has at rest run exactly
those operations whose conditions all pass and answered yes. Observers are promised start, cancel and finish
in order; that is proved for exactly those attached before `_start` ran or not yet told of the end, since one
attached while a cancelled operation refuses to start is told only of the end.

**Bencode and metainfo** (`Bencoding`, `BencodingProofs`, `BencodingIdentity`, `BencodingReader`,
`BencodingReaderProofs`, `BencodingReturns`, `BencodingTruncation`, `BencodingNumbers`,
`BencodingDictionaries`, `Torrent`, `TorrentProofs`, `TorrentIdentity`, `TorrentFile`). The printer, the
offset-based parser, and the search for the raw info slice. A byte is written as the character of its code.
Python's `int` is `ParseInt`: spaces, a sign and single underscores are accepted; the round trip is proved for
every conversion that undoes printing. A negative string length can move the parser's offset back, even below
zero, so `BencodingReader` has Python's slices and a bound on calls and rounds, with "not returned yet" as an
outcome. It is proved to return, within a bound, whenever no string it reads ends at or before its own start;
and for every document it fails to return exactly when what it must get through comes back to a call or a loop
round at an offset where it has been. A document that is cut short or goes on behind its end is refused. The
infohash read back is the one published exactly when no tracker URL and no comment imitates the info key, or
the file goes on with the info encoding behind the first imitation. A text imitates if it contains `4:info`,
or begins with `info` and has a length that ends in the digit 4; the project exhibits an imitation that is
harmless, one that yields another identity and one that cannot be read. The file and the hashed bytes are
given in full, and two contents have one identity exactly when name, lengths and piece digests agree.

**CRC-32 and gzip framing** (`Crc32`, `Crc32Polynomial`, `Crc32Bursts`, `LittleEndian`, `Gzip`). The
table-driven checksum against the division bit by bit, and that against the unique remainder of the message
polynomial over the field of two elements (section 8 of RFC 1952); the burst-error theorem, and the frame of
sections 2.3 and 2.3.1 of RFC 1952 around an arbitrary pair of DEFLATE functions. The documentation says a
trailer that does not match is refused; the code compares only the checksum and never reads the length.

**Bounded log file and rotation** (`LogStream`, `LogStreamTheorems`, `LogFileOutputStream`, `LogRotation`).
File contents, handle offset, truncation, newline search, retry buffer and timer, with a failure possible at
every system call and partial writes. A search that never returns is an explicit outcome. After a failed write
nothing is lost up to the capacity of the buffer: all that was logged until the next successful reopen then
stands before the handle, with whatever the old file held behind it. The header text passed on a reopen is not
used by the code; the model follows the code.

**Recent connections** (`Recents`, `RecentsTheorems`). The truncated move-to-front list against the whole
history. `enable` does not truncate, so with a limit of zero the law needs one addition; deleting a custom
list switches a disabled store on and drops items without a value.

**Installer actor** (`Installer`, `InstallerTheorems`, `InstallerOffers`, `InstallerProgress`,
`InstallerControls`, `InstallerActions`). The message loop, the awaited abort, the UI closures in FIFO order
and the download tasks as a transition system; the user clicks only on controls that are shown. In every
reachable state at rest the user can start or retry something, exactly when both offered versions have a
download URL or neither has; and without clicks and progress reports the system comes to rest in a bounded
number of steps. Every control is given by the closures that have run; with a beta there is always a link to
the version not chosen; clicks take effect, nothing starts unasked, and nothing is installed unverified.

**Release history** (`ReleaseHistory`, `ReleaseTheorems`). Repeated publication over the previous manifest,
readable or not, with withdrawal, healing of translations, the iOS filter and the website's per-platform map.
The builder's documentation says a release never blanks the platforms it does not ship; when the previous
downloads.json cannot be read, the code does.

## Model

| member | source | states |
|---|---|---|
| LifecycleProofs.ActKeepsInv | ios/Operations/AsyncOperation.swift:194-379 | every critical section, in any state that satisfies it, keeps the invariant on queue, dispatch group, results, cancellation, finish and observers |
| LifecycleProofs.SetterIncreases | ios/Operations/AsyncOperation.swift:76-83 | every value a section assigns to the state is greater than the state before |
| LifecycleProofs.ObserverHistory | ios/Operations/AsyncOperation.swift:282-337 | an observer's history is a prefix of start-finish, start-cancel-finish or cancel-finish exactly when it was attached before the start ran or the end is untold |
| AsyncOperations.AsyncOperation.DidEnqueue | ios/Operations/AsyncOperation.swift:341-350 | the enqueue section and the invariant: initialized becomes pending through the setter, anything later stays |
| AsyncOperations.AsyncOperation.CheckReadiness | ios/Operations/AsyncOperation.swift:352-359 | evaluation begins only when pending, not cancelled and ready by the base class; the invariant is kept |
| AsyncOperations.AsyncOperation.BeginEvaluation | ios/Operations/AsyncOperation.swift:200-217 | the group holds every condition once and all results start false |
| AsyncOperations.AsyncOperation.CompleteCondition | ios/Operations/AsyncOperation.swift:207-212 | a completion posts one block that carries its index and verdict; the invariant is kept |
| AsyncOperations.AsyncOperation.DidEvaluateConditions | ios/Operations/AsyncOperation.swift:220-232 | before ready: an unmet condition cancels, and the operation becomes ready; later: nothing |
| AsyncOperations.AsyncOperation.StartSection | ios/Operations/AsyncOperation.swift:282-298 | a cancelled operation tells its observers so and refuses; any other executes and tells them it started |
| AsyncOperations.AsyncOperation.Cancel | ios/Operations/AsyncOperation.swift:304-320 | the flag is set once and the notification posted only while executing; the invariant is kept |
| AsyncOperations.AsyncOperation.SetState | ios/Operations/AsyncOperation.swift:76-83 | the only way the state is assigned; the setter's assertion is its precondition, so it holds at every assignment |
| AsyncOperations.AsyncOperation.AddDependency | ios/Operations/AsyncOperation.swift:394-400 | before the operation is given to a queue the dependency joins its set; the invariant is kept |
| AsyncOperations.AsyncOperation.TryFinish | ios/Operations/AsyncOperation.swift:361-371 | only the first finish wins and fixes the error; whether the operation was cancelled by then is recorded |
| AsyncOperations.AsyncOperation.FinishWith | ios/Operations/AsyncOperation.swift:326-327 | a finish by the body: error and state if it is the first; the invariant is kept |
| AsyncOperations.AsyncOperation.FinishRefused | ios/Operations/AsyncOperation.swift:284-287 | the finish of a refused start carries the cancellation error; the invariant is kept |
| AsyncOperations.AsyncOperation.AddObserver | ios/Operations/AsyncOperation.swift:168-174 | the observer joins with an empty history; the invariant is kept |
| AsyncOperations.AsyncOperation.RunBlock | ios/Operations/AsyncOperation.swift:282-337 | the first block of the serial queue is taken and does what its kind says; the invariant is kept |
| Exclusivity.ExclusivityManager.AddOperation | ios/Operations/AsyncOperationQueue.swift:61-80 | the newcomer depends on the last of each category's list, joins every list at the end and gets one finish callback per category |
| Exclusivity.ExclusivityManager.RemoveOperation | ios/Operations/AsyncOperationQueue.swift:82-101 | the first occurrence leaves every list of the categories and empty lists disappear |
| Exclusivity.ExclusivityManager.RemoveFirst | ios/Operations/AsyncOperationQueue.swift:91-93 | the list without the first occurrence of the operation |
| SchedulerProofs.StepKeepsInv | ios/Operations/AsyncOperationQueue.swift:12-101 | every step of every interleaving keeps the whole system's invariant |
| SchedulerProofs.NewcomerWaits | ios/Operations/AsyncOperationQueue.swift:61-75 | a newly registered operation waits for every unfinished earlier one of its category, directly or through one between them |
| SchedulerProofs.ReleaseKeepsInv | ios/Operations/AsyncOperationQueue.swift:76-101 | removing list entries late, twice or out of order breaks nothing |
| ExclusionTheorems.StartsInOrder | ios/Operations/AsyncOperationQueue.swift:61-80 | in safe modes, once an operation of a category has been started all registered earlier in it have finished |
| ExclusionTheorems.UnsafeModesFail | ios/Operations/AsyncOperation.swift:118-139 | in every other mode three operations reach a state where two of one category execute together |
| ExclusionTheorems.ExclusionExactly | ios/Operations/AsyncOperationQueue.swift:61-101 | no reachable state has two executing operations of one category if and only if the mode is safe |
| CategoryExclusion.CategoryStartsInOrder | ios/Operations/AsyncOperationQueue.swift:61-80 | in every mode, along a run that cancels no waiting operation of a category, its operations start only after all registered before them in it have finished |
| CategoryExclusion.CategoryExcludes | ios/Operations/AsyncOperationQueue.swift:61-101 | then no two operations of that category execute together |
| ExclusionTheorems.ReleaseExactly | ios/Operations/AsyncOperationQueue.swift:82-101 | a finish callback takes its operation, and no other, out of every list, in every reachable state |
| ExclusionTheorems.NothingLeftBehind | ios/Operations/AsyncOperationQueue.swift:95-99 | no reachable state keeps an empty list, so the lists are gone exactly when nothing is queued |
| OperationTheorems.StateOnlyIncreases | ios/Operations/AsyncOperation.swift:76-83 | in every reachable state the setter's assertion holds at each assignment, and the assigned value is the new state |
| OperationTheorems.RunPersists | ios/Operations/AsyncOperation.swift:361-371 | along any run the state never falls, a finished operation's error never changes, nor whether it was cancelled by then, a cancellation stays and observers' histories only grow |
| OperationTheorems.ObserversSeeProperHistories | ios/Operations/AsyncOperation.swift:282-337 | in every reachable state histories are proper exactly for observers attached before the start ran or not yet told of the end; a late one hears neither start nor cancel |
| OperationTheorems.LateObserverSeesOnlyTheEnd | ios/Operations/AsyncOperation.swift:168-174 | a reachable state in which an observer attached during a refusal has been told only of the end |
| OperationTheorems.CancelledNeverRuns | ios/Operations/AsyncOperation.swift:282-288 | an operation cancelled before its start ran never enters its body and never reports a start, in any continuation |
| OperationTheorems.RunsAfterCleanDependencies | ios/Operations/NoFailedDependenciesCondition.swift:25-43 | an operation with the condition enters its body only after all dependencies ended by themselves, without error and not cancelled by then; that it does enter it is ConditionTheorems.RunsExactly |
| OperationTheorems.FailureStopsChain | ios/Operations/NoFailedDependenciesCondition.swift:25-43 | after one operation of a chain ended with an error, cancelled or without running, no later operation ever enters its body, and each that finishes is cancelled |
| OperationTheorems.CancelledDependencyStops | ios/Operations/NoFailedDependenciesCondition.swift:34-36 | a dependency cancelled before the condition is asked, even after it ended without error, keeps the operation from ever entering its body |
| ConditionTheorems.VerdictExactly | ios/Operations/NoFailedDependenciesCondition.swift:25-43 | a condition answers at once unless it is a block condition, and then yes if and only if each dependency meets what it demands: no other error, and no cancellation unless ignored; not cancelled; nothing |
| ConditionTheorems.RunsWhenNothingObjects | ios/Operations/AsyncOperation.swift:220-298 | over any run, an operation whose conditions are met and answer yes, and that nobody cancels, is never cancelled, and when it has finished has run its body |
| ConditionTheorems.OneNoStops | ios/Operations/AsyncOperation.swift:207-232 | one condition that answers no keeps the operation from its body in any continuation |
| ConditionTheorems.RunsExactly | ios/Operations/AsyncOperation.swift:194-298 | left to itself the system comes to rest, and an operation has then run its body if and only if all its conditions pass and none answered no |
| OperationTheorems.FailureCancelsChain | ios/Operations/AsyncOperation.swift:282-288 | over a whole run, a later operation of a chain with such an end that has finished carries the cancellation error, if only its body and its start section finish it |
| ProgressTheorems.DependenciesAreEarlier | ios/Operations/AsyncOperationQueue.swift:61-80 | all edges, exclusivity edges over any categories included, point to earlier registrations |
| ProgressTheorems.ProgressRunsEnd | ios/Operations/AsyncOperation.swift:341-359 | what the system does by itself is bounded by a measure |
| ProgressTheorems.NeverStuck | ios/Operations/AsyncOperation.swift:352-359 | a reachable state with an operation that is not closed has an enabled step of the system's own |
| ProgressTheorems.EverythingFinishes | ios/Operations/AsyncOperationQueue.swift:12-32 | the system comes to rest, and then every registered operation has finished and told its observers |
| DeadlockTheorems.LaterDependencyDeadlocks | ios/Operations/AsyncOperationQueue.swift:61-75 | where clients may depend on later operations, two of one category reach a state at rest in which each waits for the other |
| DeadlockTheorems.ProgressExactly | ios/Operations/AsyncOperationQueue.swift:12-80 | every reachable state at rest has all registered operations finished if and only if clients depend only on operations already given to a queue |
| ResultOperations.FirstResultWins | ios/Operations/ResultOperation.swift:95-132 | over every run of moves and inherited sections the handler in place at the first submission is called at most once, with the first result, before the inherited operation is in the finished state; then `result` is that result and the error is the one in it |
| ResultOperations.HandlerBeforeObservers | ios/Operations/ResultOperation.swift:121-131 | no observer is told of the end before the handler in place at the first submission has been called |
| ResultOperations.FinishedByError | ios/Operations/ResultOperation.swift:81-89 | an operation first finished by an error ends with that error, or the cancellation error if none is given, has no output and calls its handler with it |
| ResultOperations.ResultOperation.SetCompletionHandler | ios/Operations/ResultOperation.swift:50-64 | the handler is replaced unless a finish is pending |
| ResultOperations.ResultOperation.Finish | ios/Operations/ResultOperation.swift:95-132 | the first submission takes handler and result, later ones change nothing |
| ResultOperations.ResultOperation.FinishWithError | ios/Operations/ResultOperation.swift:81-89 | a finish by error, as a refused start calls it, is the submission of that failure, or of the cancellation error |
| ResultOperations.ResultOperation.RunCompletion | ios/Operations/ResultOperation.swift:121-131 | the handler is called, then the inherited operation finishes with the failure, if any, and keeps its invariant |
| BencodingReader.BdecodeAt | ci/torrentlib.py:222-256 | the recursion computes the reference reader for every Python offset, or has not returned within the given calls |
| BencodingReader.BdecodeList | ci/torrentlib.py:229-238 | the list loop from any offset |
| BencodingReader.BdecodeDict | ci/torrentlib.py:239-248 | the dictionary loop from any offset, the key hashed after its value is read |
| BencodingReaderProofs.NegativeLengthRepeats | ci/torrentlib.py:249-256 | on `l-3:e` the parser returns after no number of calls and rounds |
| BencodingReaderProofs.NegativeLengthMayReturn | ci/torrentlib.py:249-256 | on `li5e-4:` it goes back and returns `([5, b""], 4)` |
| BencodingReaderProofs.NegativeOffsets | ci/torrentlib.py:222-256 | a negative offset reads what the same place reads from the front, but for the last byte |
| BencodingNumbers.ParseIntExactly | ci/torrentlib.py:228-228 | a text is taken for a number if and only if it is spaces, a sign or none, digits with single underscores between them, and spaces; and then for the number they write |
| BencodingNumbers.CharactersAre | ci/torrentlib.py:228-228 | which bytes are spaces and which are digits |
| BencodingDictionaries.PutKnown | ci/torrentlib.py:248-248 | assigning to a key that is there replaces its value where it stands |
| BencodingDictionaries.PutNew | ci/torrentlib.py:248-248 | any other key is added behind the rest |
| BencodingDictionaries.ReadsWellFormed | ci/torrentlib.py:239-248 | no dictionary that the parser returns has a key twice, at any depth, whatever the document |
| BencodingTruncation.ValueCut | ci/torrentlib.py:222-256 | of a document cut off anywhere the parser reads the same value or raises, and what it reads of the shorter one it reads of the longer |
| BencodingTruncation.WrongEndRefused | ci/torrentlib.py:210-219 | a document on which the parser moves forward is refused when it is cut short anywhere and when anything stands behind it |
| BencodingProofs.ShowIntHolds | ci/torrentlib.py:75-78 | Python's conversion undoes the printing of every integer |
| BencodingProofs.DecodeEncode | ci/torrentlib.py:222-256 | wherever the encoding of a value stands in a document, the parser, moving forward, yields the value and the offset behind it |
| BencodingReaderProofs.BdecodeBencode | ci/torrentlib.py:210-219 | decoding the encoding of any value returns it, with its dictionaries sorted, within twice its length in calls |
| BencodingReaderProofs.AtAgrees | ci/torrentlib.py:222-256 | unless a string ends at or before its start, the parser returns within a bound what the forward parser says, value, offset or exception |
| BencodingReaderProofs.NoProgressExactly | ci/torrentlib.py:249-256 | the forward parser stops if and only if some string that the parser reads ends at or before its start |
| BencodingReaderProofs.ParserProgresses | ci/torrentlib.py:222-256 | if no string that it reads has a negative length, the parser returns within a bound |
| BencodingReturns.NeverReturnsExactly | ci/torrentlib.py:222-256 | for every document and offset: the parser returns after no number of calls and rounds if and only if what it must get through comes back to a call or a round at an offset where it has been |
| BencodingReturns.WalkAgrees | ci/torrentlib.py:222-256 | where the parser goes, and whether it raises, does not depend on the values it has collected |
| BencodingReaderProofs.InnerColonIsHarmless | ci/torrentlib.py:249-252 | `3:-1:` meets that condition: a colon inside a string is no length |
| BencodingIdentity.EncodingIdentifies | ci/torrentlib.py:65-89 | two values have the same encoding if and only if they are equal with dictionaries compared without order |
| BencodingIdentity.EncodingIsSelfDelimiting | ci/torrentlib.py:65-89 | no encoding is a proper prefix of another |
| BencodingIdentity.SortIncreasing | ci/torrentlib.py:84-88 | keys of distinct entries come out strictly increasing |
| BencodingIdentity.KeyOrderExactly | ci/torrentlib.py:83-87 | byte keys are ordered by their first difference or by length, integer keys by number |
| BencodingIdentity.TypeErrorExactly | ci/torrentlib.py:65-89 | the printer raises if and only if a boolean, or a dictionary that mixes byte and integer keys, stands anywhere in the value |
| Torrent.ChoosePieceLength | ci/torrentlib.py:92-97 | the least power of two within the bounds that keeps the piece count at the target, or the largest allowed |
| Torrent.ChosenExactly | ci/torrentlib.py:92-97 | of 256 KiB and its doublings up to 4 MiB, the least that leaves at most 1500 whole pieces, or 4 MiB |
| Torrent.HashPieces | ci/torrentlib.py:100-109 | the digests of the pieces, concatenated in order |
| Torrent.PiecesHold | ci/torrentlib.py:100-109 | the pieces join to the content, all but the last are full and none is empty |
| Torrent.BuildInfo | ci/torrentlib.py:112-123 | length, name, piece length and the digests of the pieces of the content, with the piece length given or chosen |
| TorrentFile.IdentityIs | ci/torrentlib.py:112-126 | the hashed bytes in full: the four keys in order with length, name, piece length and digests |
| TorrentFile.FileIs | ci/torrentlib.py:129-150 | the published file in full: every key in order, comment and web seeds only if there are any |
| TorrentFile.BuildFailsExactly | ci/torrentlib.py:140-140 | building fails exactly for want of a first tracker |
| TorrentFile.InfoIdentifies | ci/torrentlib.py:112-126 | two identities are equal if and only if the info dictionaries are |
| TorrentFile.ContentIdentifies | ci/torrentlib.py:100-126 | two contents have one identity if and only if name, piece length, length and all piece digests agree; so different contents of one name and piece length have different identities, or a SHA-1 collision of two pieces |
| TorrentFile.PublishedReadsBack | ci/torrentlib.py:129-150 | decoding the published file gives back length, name, piece length and piece digests of the content, date, creator, comment, trackers and web seeds |
| TorrentProofs.TrackersExactly | ci/torrentlib.py:274-278 | of any metainfo, the trackers are those of its tiers, and the first tracker alone where they name none |
| TorrentProofs.OccursInText | ci/torrentlib.py:77-78 | an encoded text contains the info key's bytes exactly when the text imitates the key |
| TorrentIdentity.HitExactly | ci/torrentlib.py:268-271 | the first match in a published file is at the first imitation among tracker URLs and comment, in file order, or at the info key |
| TorrentIdentity.InfoKeyFoundExactly | ci/torrentlib.py:266-272 | the first match is the info key if and only if no tracker URL and no comment imitates it |
| TorrentIdentity.ImitatorMayBeHarmless | ci/torrentlib.py:268-280 | a comment of the key's bytes and the info encoding imitates, and the infohash is read back all the same |
| TorrentIdentity.MisleadingComment | ci/torrentlib.py:268-280 | with the comment `x4:info3:abc` the bytes `3:abc` are hashed instead of the info dictionary |
| TorrentIdentity.UnreadableTracker | ci/torrentlib.py:268-272 | with the tracker `info.example:1` nothing is read back |
| TorrentIdentity.InfohashExactly | ci/torrentlib.py:266-280 | the bytes hashed are the published encoding, which TorrentFile.IdentityIs gives in full, if and only if no tracker URL and no comment imitates the key, or the file goes on with that encoding behind the first imitation |
| TorrentIdentity.DescribeReadsBack | ci/torrentlib.py:259-285 | if nothing imitates, name, size, trackers, web seeds and identity are read back as published |
| Crc32.BuildTable | ios/WarrenRustRuntime/WarrenGzip.swift:126-134 | entry i is eight single-bit steps from i |
| Crc32.StepLinear | ios/WarrenRustRuntime/WarrenGzip.swift:130-130 | one step is linear over exclusive or |
| Crc32.EightSteps | ios/WarrenRustRuntime/WarrenGzip.swift:139-139 | eight steps on any register are one table entry and a shift |
| Crc32.RegisterDivides | ios/WarrenRustRuntime/WarrenGzip.swift:136-142 | the table-driven register after any bytes is the bit-by-bit division of their bits |
| Crc32Polynomial.OfPolynomial | ios/WarrenRustRuntime/WarrenGzip.swift:130-130 | the constant, lowest bit as coefficient of x^31, is the generator polynomial without x^32 |
| Crc32Polynomial.RegisterIsRemainder | ios/WarrenRustRuntime/WarrenGzip.swift:136-142 | after any bits the register is a remainder of the message polynomial, with the start register added to its front, modulo the generator |
| Crc32Polynomial.RemainderUnique | ios/WarrenRustRuntime/WarrenGzip.swift:136-142 | a polynomial has one remainder of degree below 32 |
| Crc32Polynomial.ChecksumExactly | ios/WarrenRustRuntime/WarrenGzip.swift:136-142 | a word is the checksum of the data if and only if its complement is the remainder of the message with its first thirty-two coefficients complemented |
| Crc32.Crc | ios/WarrenRustRuntime/WarrenGzip.swift:136-142 | the loop returns the checksum by its definition |
| Crc32Bursts.BurstsDetected | ios/WarrenRustRuntime/WarrenGzip.swift:136-142 | inputs whose bits differ only within thirty-two consecutive ones have different checksums |
| Crc32Bursts.ByteBurstsDetected | ios/WarrenRustRuntime/WarrenGzip.swift:136-142 | replacing up to four consecutive bytes changes the checksum |
| LittleEndian.ReadUInt32LE | ios/WarrenRustRuntime/WarrenGzip.swift:117-123 | the loop reads the word with the low byte first |
| LittleEndian.LittleReadBack | ios/WarrenRustRuntime/WarrenGzip.swift:42-45 | the bytes written for a word read back as the word |
| LittleEndian.FromLittleReadBack | ios/WarrenRustRuntime/WarrenGzip.swift:117-123 | four bytes are the bytes of the word they hold, so different bytes hold different words |
| Gzip.Compress | ios/WarrenRustRuntime/WarrenGzip.swift:38-47 | header, body, checksum and length modulo 2^32, or the stream's failure |
| Gzip.Decompress | ios/WarrenRustRuntime/WarrenGzip.swift:60-74 | the content, or which of the two errors |
| Gzip.AcceptedExactly | ios/WarrenRustRuntime/WarrenGzip.swift:60-74 | any string is accepted with content d if and only if it has eighteen bytes and the magic ones, its body inflates to d and its checksum bytes are those of d |
| Gzip.StreamFailsExactly | ios/WarrenRustRuntime/WarrenGzip.swift:60-74 | the stream is blamed exactly when the frame is right and the body does not inflate |
| Gzip.CompressedIs | ios/WarrenRustRuntime/WarrenGzip.swift:38-47 | the member in full: ten header bytes, the body, checksum and length modulo 2^32 low byte first; or the stream's failure |
| Gzip.RoundTrip | ios/WarrenRustRuntime/WarrenGzip.swift:38-74 | with a faithful codec decompressing undoes compressing, for all data |
| Gzip.CrcChangeRefused | ios/WarrenRustRuntime/WarrenGzip.swift:69-72 | any other four checksum bytes are refused |
| Gzip.CorruptionRefused | ios/WarrenRustRuntime/WarrenGzip.swift:68-72 | a body that inflates to the content with up to thirty-two consecutive bits changed is refused |
| Gzip.ByteCorruptionRefused | ios/WarrenRustRuntime/WarrenGzip.swift:68-72 | the same for one to four consecutive bytes |
| Gzip.LengthIsIgnored | ios/WarrenRustRuntime/WarrenGzip.swift:60-74 | the length word and the header after its third byte never matter |
| LogStream.Apply | ios/WarrenLogging/LogFileOutputStream.swift:27-40 | every event keeps the timer armed exactly while waiting, the buffer empty otherwise and the handle inside the file |
| LogStreamTheorems.FindLineSpec | ios/WarrenLogging/LogFileOutputStream.swift:234-250 | the search stops just after the first newline, or short of any within a read of the limit |
| LogStreamTheorems.EndlessExactly | ios/WarrenLogging/LogFileOutputStream.swift:234-250 | it never returns if and only if no newline follows and a read at the end of the file stays within the limit |
| LogStreamTheorems.EndlessNeverReturns | ios/WarrenLogging/LogFileOutputStream.swift:247-249 | then no number of recursive calls returns |
| LogStreamTheorems.FindLineReturns | ios/WarrenLogging/LogFileOutputStream.swift:234-250 | otherwise the recursion returns that place, within one call per remaining byte and one |
| LogStreamTheorems.StaysBelowLimit | ios/WarrenLogging/LogFileOutputStream.swift:119-154 | if header and chunk always fit half the limit, the file stays below the limit through every run of writes, truncations, failures and reopens |
| LogStreamTheorems.CapacitySuffices | ios/WarrenLogging/LogFileOutputStream.swift:217-223 | a header and a full buffer within half the limit make every flushed buffer fit |
| LogStreamTheorems.SearchesEnd | ios/WarrenLogging/LogFileOutputStream.swift:130-154 | chunks that end lines and are shorter than half the limit never hang the stream, whatever fails |
| LogStreamTheorems.HangsExactly | ios/WarrenLogging/LogFileOutputStream.swift:91-147 | the exact condition under which an event hangs the queue: a write to an open file, through a file opened for it, or a reopen with its flush |
| LogStreamTheorems.RunHangsExactly | ios/WarrenLogging/LogFileOutputStream.swift:91-215 | a run ends hung if and only if one of its events meets that condition in the state it finds |
| LogStreamTheorems.OpenHangsExactly | ios/WarrenLogging/LogFileOutputStream.swift:156-197 | opening hangs only on a header of exactly the limit; with a shorter one it overwrites the front of the file |
| LogStreamTheorems.UnendedLinesHang | ios/WarrenLogging/LogFileOutputStream.swift:234-250 | three short chunks without line ends that hang it |
| LogStreamTheorems.RetainedTail | ios/WarrenLogging/LogFileOutputStream.swift:140-154 | a truncation keeps the header and a suffix of the old file that starts after the first newline behind half the limit, unless the search came within a read of the limit |
| LogStreamTheorems.BufferIsLastOfBacklog | ios/WarrenLogging/LogFileOutputStream.swift:199-223 | in every run the buffer is the last bytes of every chunk that came while the stream waited or whose write threw, since the last successful reopen |
| LogStreamTheorems.PutOffWaits | ios/WarrenLogging/LogFileOutputStream.swift:91-117 | an event leaves the stream waiting, timer armed and chunk buffered, if and only if it was waiting or the write threw; otherwise the file is open, unless a search hung |
| LogStreamTheorems.PutOffLeaves | ios/WarrenLogging/LogFileOutputStream.swift:91-117 | the disk then holds what the failing call left |
| LogStreamTheorems.LoggedStands | ios/WarrenLogging/LogFileOutputStream.swift:91-138 | a chunk that is not put off stands before the handle |
| LogStreamTheorems.TickRecovers | ios/WarrenLogging/LogFileOutputStream.swift:199-215 | a tick ends the waiting if and only if reopen and flush succeed, and else keeps all that waits |
| LogStreamTheorems.TickLeaves | ios/WarrenLogging/LogFileOutputStream.swift:199-215 | the disk then holds what the failing call left |
| LogStreamTheorems.OutageLosesNothing | ios/WarrenLogging/LogFileOutputStream.swift:91-223 | after a failed write, when a reopen succeeds, that chunk and all that was logged meanwhile stand before the handle, up to the capacity |
| LogStreamTheorems.ThrownTruncation | ios/WarrenLogging/LogFileOutputStream.swift:140-154 | a truncation that throws leaves the old file or a beginning of the new one, exactly as far as it got |
| LogStreamTheorems.ThrownWrite | ios/WarrenLogging/LogFileOutputStream.swift:119-138 | a write that throws keeps what stood before the handle and leaves the bytes it got out |
| LogStreamTheorems.FileIsEndOfLog | ios/WarrenLogging/LogFileOutputStream.swift:119-154 | on a fresh file without failures the file is the header and an unbroken end of everything logged, or a newline search never returned |
| LogStreamTheorems.LinesAreKept | ios/WarrenLogging/LogFileOutputStream.swift:119-154 | if header and chunks end lines, no search hangs and the file is exactly that |
| LogFileOutputStreams.LogFileOutputStream.SetState | ios/WarrenLogging/LogFileOutputStream.swift:27-40 | the observer arms and disarms the timer |
| LogFileOutputStreams.LogFileOutputStream.BufferIt | ios/WarrenLogging/LogFileOutputStream.swift:217-223 | the data is appended and the front trimmed to the capacity |
| LogFileOutputStreams.LogFileOutputStream.ReadUntilNextLineBreak | ios/WarrenLogging/LogFileOutputStream.swift:234-250 | the handle ends where the search says |
| LogFileOutputStreams.LogFileOutputStream.TruncateFileInHalf | ios/WarrenLogging/LogFileOutputStream.swift:140-154 | file and handle after a truncation or any failure inside it |
| LogFileOutputStreams.LogFileOutputStream.Write | ios/WarrenLogging/LogFileOutputStream.swift:119-138 | file and handle after a write, with or without truncation, or any failure |
| LogFileOutputStreams.LogFileOutputStream.OpenFileWithHeader | ios/WarrenLogging/LogFileOutputStream.swift:156-197 | opening resumes at offset 0 and overwrites with the header |
| LogFileOutputStreams.LogFileOutputStream.WriteOnQueue | ios/WarrenLogging/LogFileOutputStream.swift:91-117 | the object follows the state machine on a log event |
| LogFileOutputStreams.LogFileOutputStream.ReopenFile | ios/WarrenLogging/LogFileOutputStream.swift:199-215 | the object follows it on a timer event |
| LogRotation.DeleteLogs | ios/WarrenLogging/LogRotation.swift:84-98 | the loop comes through exactly when the 64-bit sum does not overflow and every due removal succeeds, and in every case the disk lost exactly the due logs before the end |
| LogRotation.DoomedExactly | ios/WarrenLogging/LogRotation.swift:89-96 | newest first, a log is deleted if and only if it lies outside the longest acceptable prefix |
| LogRotation.KeepsLongestPrefix | ios/WarrenLogging/LogRotation.swift:68-97 | what remains is exactly the longest prefix within the size limit whose members are recent |
| LogRotation.RotateLogs | ios/WarrenLogging/LogRotation.swift:74-97 | when the loop comes through, the disk has lost exactly the logs behind the longest prefix worth keeping, which exists |
| LogRotation.SecondRotationKeepsAll | ios/WarrenLogging/LogRotation.swift:84-98 | rotating again deletes nothing |
| Recents.SameIsKeyEquality | ios/WarrenSettings/RecentConnectionsRepository.swift:164-195 | two items are duplicates if and only if they stand for the same list or the same locations |
| Recents.SameIsEquivalence | ios/WarrenSettings/RecentConnectionsRepository.swift:164-195 | the duplicate test is an equivalence |
| Recents.RecentConnectionsRepository.DropDuplicates | ios/WarrenSettings/RecentConnectionsRepository.swift:138-145 | the loop keeps an item unless an earlier one is its duplicate |
| Recents.RecentConnectionsRepository.InsertFirst | ios/WarrenSettings/RecentConnectionsRepository.swift:76-88 | the new item first, the rest without duplicates, cut at the limit |
| Recents.RecentConnectionsRepository.AddRecent | ios/WarrenSettings/RecentConnectionsRepository.swift:68-98 | both lists are updated and the new store announced, or nothing changes and the failure is announced: unreadable, disabled or unwritable store |
| Recents.RecentConnectionsRepository.EnableRecents | ios/WarrenSettings/RecentConnectionsRepository.swift:52-66 | an enabled store with the selected locations only, stored and announced, or the failure announced |
| Recents.RecentConnectionsRepository.DisableRecents | ios/WarrenSettings/RecentConnectionsRepository.swift:41-50 | a disabled and empty store, stored and announced, or the failure announced |
| Recents.RecentConnectionsRepository.DeleteList | ios/WarrenSettings/RecentConnectionsRepository.swift:109-162 | both lists cleared of the custom list and freed of duplicates, in an enabled store that is announced, or the failure announced |
| RecentsTheorems.DedupedIsDistinct | ios/WarrenSettings/RecentConnectionsRepository.swift:138-145 | the loop's result is the first item of each class, in order |
| RecentsTheorems.InsertExtendsHistory | ios/WarrenSettings/RecentConnectionsRepository.swift:76-88 | inserting into the truncated list is truncating the list of the longer history |
| RecentsTheorems.HistoryExactly | ios/WarrenSettings/RecentConnectionsRepository.swift:52-98 | after `enable` and any additions the stored lists are the first distinct classes of the reversed history up to the limit, if and only if the limit is positive or something was added |
| RecentsTheorems.ClearedLists | ios/WarrenSettings/RecentConnectionsRepository.swift:119-137 | a class remains after clearing if and only if some item with a value stands for it and it is not the deleted list |
| RecentsTheorems.DeletionKeeps | ios/WarrenSettings/RecentConnectionsRepository.swift:109-162 | in entries and exits what remains are items that were there, in order, with their locations and without the deleted selection, no two alike; of a list within the limit exactly the deleted list itself and items without a value are lost |
| RecentsTheorems.DeletionOfUnmentioned | ios/WarrenSettings/RecentConnectionsRepository.swift:109-162 | deleting a list that nothing mentions changes nothing, for items with values |
| RecentsTheorems.RunsOrderly | ios/WarrenSettings/RecentConnectionsRepository.swift:41-162 | over all operations in any order both lists stay bounded and free of duplicates |
| RecentsTheorems.FailuresLeaveNoTrace | ios/WarrenSettings/RecentConnectionsRepository.swift:41-162 | operations that fail to read or write leave the store as the successful ones alone make it |
| RecentsTheorems.DeletionEnables | ios/WarrenSettings/RecentConnectionsRepository.swift:154-157 | deleting a custom list enables a disabled store |
| RecentsTheorems.OutcomeExactly | ios/WarrenSettings/RecentConnectionsRepository.swift:41-162 | which operations succeed, and when an addition is refused because recents are disabled |
| Installer.ActionMessageHandler.HandleTryBeta | installer-downloader/src/controller.rs:447-461 | the beta becomes the target and its closure is queued, only if there is one |
| Installer.ActionMessageHandler.HandleTryStable | installer-downloader/src/controller.rs:463-474 | the stable version becomes the target and its closure is queued |
| Installer.ActionMessageHandler.CancelDownload | installer-downloader/src/controller.rs:573-579 | the active download is taken and its end awaited |
| Installer.ActionMessageHandler.HandleMessage | installer-downloader/src/controller.rs:438-445 | each message does what the actor's step function says |
| Installer.ActionMessageHandler.QueueDownload | installer-downloader/src/controller.rs:476-535 | the preparing and the spawning closure are queued and the answer awaited |
| Installer.ActionMessageHandler.QueueCancelled | installer-downloader/src/controller.rs:537-571 | the closure of the cancel is queued, or the expectation of a beta fails |
| InstallerTheorems.StepKeepsInv | installer-downloader/src/controller.rs:447-579 | every step keeps the invariant on versions, tasks, queue and fences |
| InstallerTheorems.OneDownload | installer-downloader/src/controller.rs:476-535 | in every run at most one download is live, an aborted one that has not stopped included |
| InstallerTheorems.BetaOnlyIfOffered | installer-downloader/src/controller.rs:498-561 | no `expect` ever fails, a beta target implies a beta, and no link is shown without one; which link is shown is InstallerControls.OtherVersionLinked |
| InstallerTheorems.NoLateClosures | installer-downloader/src/ui_downloader.rs:37-144 | after the closure of a cancel or restart the UI thread runs no closure of any earlier download |
| InstallerControls.ControlsExactly | installer-downloader/src/controller.rs:447-571 | in every run each control is shown or enabled if and only if a closure that has run switched it on and none since has switched it off |
| InstallerControls.CancelExactly | installer-downloader/src/ui_downloader.rs:37-62 | the user can cancel exactly while the latest download started has neither completed nor failed nor been cancelled |
| InstallerControls.OtherVersionLinked | installer-downloader/src/controller.rs:537-571 | with a beta and no closure waiting there is no link to the version chosen, and a link to the other wherever a download can be started |
| InstallerControls.SwitchTakesEffect | installer-downloader/src/controller.rs:447-474 | following that link chooses the other version and links back |
| InstallerActions.StartTakesEffect | installer-downloader/src/controller.rs:476-535 | at rest the download or the retry button starts the version chosen, if it has a URL |
| InstallerActions.CancelTakesEffect | installer-downloader/src/controller.rs:537-579 | the cancel or the dismiss button ends every download, starts none and brings the download button back |
| InstallerActions.NothingStartsUnasked | installer-downloader/src/controller.rs:433-535 | without a click on the download or the retry button no run starts a download |
| InstallerActions.FirstClickCounts | installer-downloader/src/controller.rs:175-193 | until the handler takes a message the first click counts and later ones are lost |
| InstallerActions.InstalledIsVerified | installer-downloader/src/ui_downloader.rs:37-144 | the app quits for an installer only after that download was reported complete and then verified |
| InstallerActions.NoExpectFails | installer-downloader/src/controller.rs:498-548 | every closure that starts or cancels a version finds it in the metadata |
| InstallerProgress.QuietRunsEnd | installer-downloader/src/controller.rs:433-579 | every step but a click or a progress report decreases a measure |
| InstallerProgress.NeverStuck | installer-downloader/src/controller.rs:433-435 | until the app quits, whatever is under way has such a step; for a live download the model lets its stage succeed |
| InstallerProgress.ComesToRest | installer-downloader/src/controller.rs:433-579 | left alone, every run is bounded, and where it cannot go on the app has quit or all is at rest with something offered |
| InstallerOffers.InconsistentStrands | installer-downloader/src/controller.rs:503-505 | with only one of two offered versions downloadable, a late click leads to a state at rest without download button or error message |
| InstallerOffers.OffersExactly | installer-downloader/src/controller.rs:447-579 | every reachable state at rest offers a download or an error message if and only if both offered versions have a URL or neither has |
| ReleaseHistory.HealMissingTranslations | ci/build-version-metadata.py:259-268 | each entry gains the notes found for its version, found ones winning |
| ReleaseHistory.BuildDownloads | ci/build-version-metadata.py:507-510 | withdrawn entries leave, shipped platforms are entered |
| ReleaseTheorems.KeptIsPassAll | ci/build-version-metadata.py:536-581 | dropping, healing, filtering and merging act entry by entry |
| ReleaseTheorems.HistoryExactly | ci/build-version-metadata.py:565-590 | after any runs the list is, latest first, one entry for each version published and since then neither republished nor withdrawn, with that publication's payload and all later notes, then what no run touched; the metadata version grew by one per run |
| ReleaseTheorems.MetadataVersionGrows | ci/build-version-metadata.py:583-584 | the metadata version strictly increases |
| ReleaseTheorems.ListedExactly | ci/build-version-metadata.py:536-551 | from any first manifest a version is listed if and only if some run published it and none has withdrawn it since, or it was listed at first and no run touched it |
| ReleaseTheorems.EachVersionOnce | ci/build-version-metadata.py:536-539 | from a first manifest without repetitions, no version is ever listed twice |
| ReleaseTheorems.UnreadableStartsOver | ci/build-version-metadata.py:271-285 | a run that cannot read the previous manifest starts over: the result is the history of the runs from there on, numbered from one |
| ReleaseTheorems.ReadableHistory | ci/build-version-metadata.py:271-285 | runs that each read the previous manifest make exactly the history above, and list exactly its versions |
| ReleaseTheorems.RestartedHistory | ci/build-version-metadata.py:271-285 | after a run that cannot read it, exactly the history of the runs from there on, and nothing earlier is listed |
| ReleaseTheorems.IosHealsItself | ci/build-version-metadata.py:569-576 | one iOS run leaves only calendar versions, whatever it inherited |
| ReleaseTheorems.CalendarExactly | ci/build-version-metadata.py:107-110 | the versions the iOS manifest takes are four digits, a dot, and whatever follows |
| ReleaseTheorems.LastShipmentShows | ci/build-version-metadata.py:500-520 | each website platform shows what the last run that shipped it brought, unless a later run withdrew that version |
| ReleaseTheorems.SiteStartsOver | ci/build-version-metadata.py:488-497 | after an unreadable downloads.json the website's map is the one of the runs from there on alone |
| ReleaseTheorems.UnshippedIsBlank | ci/build-version-metadata.py:500-510 | then a platform that no later run shipped is not shown, unlike what the comment on the builder promises |
| ReleaseTheorems.LeftAloneKeeps | ci/build-version-metadata.py:554-562 | runs that do not ship a platform keep its entry until its version is withdrawn |

## Left out

- Operation queue policy (`maxConcurrentOperationCount`, priorities), key-value observing and thread scheduling: the model lets any enabled step happen.
- `BlockCondition` answers are arbitrary; an operation's body and its conditions are assumed to complete only in the progress theorems.
- ProgressTheorems.EverythingFinishes: bounds the steps the system owes by itself; it does not model the operation queue's fairness.
- BencodingReader.BdecodeAt: Python's recursion limit, which turns endless nesting into an exception, and the limit on the digits of an integer are not modelled; text keys and values are given as their bytes.
- Torrent: SHA-1 is a parameter, magnet links and file access are not modelled, and `Describe` turns every exception, and not having returned, into one outcome.
- Gzip: DEFLATE and its buffers are two functions; nothing is said about a codec that is not faithful beyond which members are accepted.
- LogStream: other writers of the same file, file removal while it is open, encodings and 64-bit overflow of offsets are not modelled.
- LogRotation.DeleteLogs: the directory listing, file attributes and the library's sort are inputs; the list is given newest first.
- Recents: JSON of the stored value, the publisher and a limit beyond the signed range are not modelled.
- Installer: version fetching and its dialogs, status texts, progress percentages (`need_update`) and the random choice of a mirror; the app is assumed to run no further closure after it quits.
- ReleaseHistory: network fetching, signing, changelog extraction, asset classification and file naming are inputs; the digits of a calendar version are ASCII; the order of platforms in the website's map is not modelled.
- Keychain, settings, account, announcement and network clients, routing, user interface code, icon and project generators and build scripts: each would only add easy members.
