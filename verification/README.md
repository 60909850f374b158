# A verified model of the Provable SDK for Go

The SDK lets a Go program execute Aleo programs through a delegated prover. This project models, in Dafny, the parts of
it that are more than plumbing, and proves what they do for every input, every network, every cache, every schedule
and every sequence of responses. `dafny verify dfyconfig.toml` checks everything.

## What is modelled

**Import resolution** (`ImportLines`, `ImportHeader`, `ImportGraph`, `Resolver`, `Resolution`). Before a program can be authorized its
transitive imports are fetched, by a recursive depth-first traversal that reads import lines out of program sources,
marks programs as visited, appends sources to a shared list and goes through an optional cache. `ImportGraph.Visit` is
the plain traversal of a graph of IDs; `Resolver.Collect` is the traversal with its sources, cache and requests;
`Authorization.ListWalk.CollectImports` is the imperative code. Each is proved to compute the one before it, and the
promises (exact closure, exact failure, dependency order, one request per program, an invisible cache) are proved of
the plain traversal and carried over. The import graph may be cyclic; the root program is not marked as visited.

**The whole authorization request** (`RustProcess`, `Authorization`, `BuildTraffic`). The Go side prints the inputs and the imports as
JSON arrays, the Rust side parses them and adds the programs to a fresh process one by one. `BuildEndsExactly` says
exactly when a request reaches snarkVM, and with which programs loaded, and exactly how it fails otherwise, whatever
snarkVM's parser reads. `ReadyIffTopological` says it in terms of the imports that snarkVM reads, `ReadyIffAcyclic` for
the case that those are the ones the SDK's line scanner reads. `BuildTrafficIs` says what a request asks of the network
and leaves in the cache, however it ends.

**Batches** (`Batch`, `BatchResolution`). `ExecuteBatch` is a transition system: the caller, one goroutine per request,
an eight-slot semaphore, the wait group, the result slots and the shared program cache. Safety, freedom from deadlock,
termination and independence of the schedule are proved for every interleaving and any number of requests. In
`BatchResolution` each goroutine runs the depth-first traversal itself: what it asks for next is read out of the sources
it has received so far, from the network or from a cache entry that another goroutine stored.

**The block iterator** (`BlockIteration`). Fifty blocks at a time, with wrapping `uint64` arithmetic, against any node,
and against a node that answers exactly.

**Retry loops, token cache, submissions** (`Retry`, `Proving`), over every history of responses and clock readings.

**Codecs of the Go/Rust boundary and of the encrypted path** (`Hex`, `Json`, `Envelope`, `Base64`, `ProvingRequest`,
`Decimal`): JSON strings (section 7 of RFC 8259), base64 (section 4 of RFC 4648), the error envelope, NUL-terminated
strings, the binary layout of a proving request, the sealed box framing, and `u64` literals.

Code that changes state step by step is modelled by classes and loops (`NetworkClient`, `ProgramCache`, `ListWalk`,
`MapWalk`, `Process`, `NodeClient`, `BlockIterator`, `RetryingClient`, `TokenCache`, and the methods for building an
authorization, submitting, writing the layout and sealing). Every such method is proved equal to a specification
function, and the properties are proved of that function.

## Assumptions

- A network is a finite map from program IDs to sources that does not change during a call or a batch.
- `add_program` fails exactly when an import is not loaded. snarkVM's parser is an arbitrary function; only the lemmas
  that require `Authorization.Reads` take it to read the target and the collected programs as the programs they were
  fetched for.
- `ProvingRequest.SelfDelimiting`: reading an authorization stops where writing it stopped, whatever follows.
- `ProvingRequest.Lawful`: opening a NaCl box undoes sealing under the same nonce and matching keys, a public key has
  32 bytes and sealing adds 16.
- `ProvingRequest.RejectsNull`: neither the empty text nor the JSON text `null` is an authorization.
- `Envelope.ReadsErrors`: Go's JSON decoder reads an object whose one member is `error` as RFC 8259 says. What it makes
  of any other text is left open.
- `BlockIteration.Exact`, where a lemma requires it: the node answers a range with exactly its blocks; a range that ends
  before it starts it may answer with no blocks or with an error.
- `Batch.Halts`: each request stops fetching when it runs alone. It is used for termination only, and proved of
  resolutions (`BatchOfHalts`).

## What turned out false, and when exactly it holds

- Leaves first: the order is topological exactly when no cycle of imports is reachable (`TopologicalIffAcyclic`). With
  a cycle resolution still succeeds (`CycleIsCollected` shows it for two programs that import each other), and it is
  the Rust side that then always meets a missing import (`ReadyIffAcyclic`).
- All imports are read: of any line at all, what is read is exactly what `ImportReadIff` says. Of the import statements
  at the head of a source, laid out with any blanks, line breaks and separating texts, all are read, in order and with
  nothing else, exactly when each stands at the start of a line but for blanks, has a space right after the word
  `import` and its ID on the same line, and, where the semicolon directly follows the ID, has a blank or a line break
  after the semicolon (`HeaderReadIff`, `SourceReadIff`). The theorem takes the texts between statements to hold no line
  that the scanner reads as an import, as a block comment could: lines are read whatever surrounds them (`LineByLine`).
  Of `import a; import b;` only `a` is read (`SecondStatementUnseen`), of a line with a tab after `import` nothing
  (`TabUnseen`), and `import a;// x` is read as the ID `a;//` (`GluedMisread`).
- A fetchable, acyclic program reaches snarkVM: exactly when what was collected is in topological order of the imports
  that snarkVM reads (`ReadyIffTopological`). An import that was missed is fatal (`MissedImportFails`), for instance the
  second on a line (`SecondStatementIsFatal`).
- One block per height: the iterator reads a range correctly exactly when neither the end of the last full-length batch
  nor `end + 1` overflows (`IteratesRangeIff`). Otherwise `Next` is false before the last batch, and without an error
  unless the node refuses the reversed range (`OverflowSkipsLastBatch`), or at `end = 2^64-1` the iterator goes on from height 0 (`OverflowRestarts`).
- Exponential backoff: the delay is the intended one exactly when `baseDelay * 2^(attempt-1)` fits in an int64
  (`DelayExactIff`); from 500 ms the 36th is negative, so there is no wait (`LongBackoffIsNegative`). A `Retry-After` is waited for as long as it says exactly when its nanoseconds fit in an int64
  (`HonouredExactIff`); 9223372037 seconds come out negative, so there is no wait (`LongRetryAfterIsNegative`). It is
  slept even after the last attempt (`SleepIsExponential`). A negative retry count makes `get`
  return neither a body nor an error (`NegativeRetriesReturnNothing`).
- Errors cross the boundary: exactly when the error text is not empty (`ErrorDelivered`). A success with a NUL in it
  arrives as the empty text, and a success that is itself the envelope of a nonempty text arrives as an error
  (`ValueDelivered`, `EnvelopeAsValue`).
- Input lists cross the boundary: except the nil slice, which is printed as `null` and refused (`ListCrosses`).
- Both proving paths deliver the same request: except for a fee that is a literal `null`, or empty without being nil
  (`PathsAgreeIff`). The first is no fee on the plain path and an error on the encrypted one (`NullFee`), the second
  the reverse (`EmptyFee`).
- The scanner's test for fewer than two words never fires (`SecondWordExists`).

## Model

| member | source | states |
|---|---|---|
| ImportLines.SecondWordExists | authorization.go:73-81 | a trimmed line is an import exactly when it starts with `import `; the guard on the number of words is dead |
| ImportLines.ImportReadIff | authorization.go:73-81 | for every line whatever: an ID is read iff, after blanks, the first word is `import`, a space follows it, and the second word is the ID or the ID and a semicolon |
| ImportLines.ImportStatementReadIff | authorization.go:73-81 | the statement at the head of a line, with any blanks, is read as its ID iff a space, not another blank, follows `import`, and a blank or the end of the line ends the ID or the semicolon that directly follows it; nothing after it on the line matters |
| ImportLines.LineByLine | authorization.go:72-73 | each line is read on its own, whatever stands before and after it |
| GoStrings.AsciiSpaces | authorization.go:73 | which characters below 256 count as blanks |
| ImportLines.ImportsReadBack | authorization.go:72-81 | the imports written at the head of a source are read back, in order, before those of its body |
| ImportLines.SecondStatementUnseen | authorization.go:72-81 | of `import a; import b;` only `a` is read |
| ImportLines.TabUnseen | authorization.go:74-76 | a statement with a tab after `import` is not read |
| ImportLines.GluedMisread | authorization.go:77-81 | with a comment right behind the semicolon, `import a;// x` is read as the ID `a;//` |
| ImportHeader.HeaderReadIff | authorization.go:71-81 | for statements laid out with any blanks and line breaks, and separated by any texts without an import line of their own: all are read, in order and with nothing else, iff each starts its line but for blanks, has a space after `import`, its ID on that line, and its word ended by a blank or a line break |
| ImportHeader.SourceReadIff | authorization.go:71-81 | the same for a whole source, whatever follows the statements |
| ImportHeader.BoundFromPad | authorization.go:71-81 | never more imports are read than there are statements |
| ImportGraph.AskedOnce | authorization.go:83-89 | on every graph no program is fetched twice, none that was visited before, and never the built-in one |
| ImportGraph.OrderIsAsked | authorization.go:89-100 | a successful traversal collects exactly the programs it fetched, each once; a failed one stops at the fetch that failed |
| ImportGraph.AskedReachable | authorization.go:71-103 | only transitive imports are fetched |
| ImportGraph.ImportsAsked | authorization.go:71-103 | after a successful traversal the visited programs are closed under imports |
| ImportGraph.LeftToRight | authorization.go:72-101 | imports are visited from left to right: the traversal of a list is that of its beginning and then that of the rest, or stops where the beginning fails |
| ImportGraph.CollectsExactly | authorization.go:59-103 | exact closure and exact failure: success iff every reachable program can be fetched, and then exactly those are collected; a reported failure is a reachable program that cannot be fetched |
| ImportGraph.VisitsInPostOrder | authorization.go:94-100 | with any programs finished and any path of programs on the recursion stack, each import of a finished program was finished before it or closes a cycle with it |
| ImportGraph.ImportsPrecedeOrCycle | authorization.go:94-100 | from the root, on every graph, cyclic or not: an import comes before its importer or reaches it |
| ImportGraph.TopologicalIffAcyclic | authorization.go:59-61 | "leaves first" holds exactly when no cycle of imports is reachable |
| ImportGraph.CycleIsCollected | authorization.go:83-100 | two programs that import each other are collected without an error, in an order that is not topological |
| Resolver.FetchReadsView | authorization.go:139-153 | a fetch answers with the cached source if there is one, else the network's, and changes nothing that a later fetch sees |
| Resolver.CollectRefinesVisit | authorization.go:71-103 | from any visited set, list and cache, resolution does what the graph traversal does: same outcome, visited set, IDs and sources |
| Resolver.CollectFetches | authorization.go:139-153 | the network is asked, in visiting order, for exactly the visited programs that are not cached, and each answer is stored |
| Resolution.ResolveIs | authorization.go:62-69 | the complete result of a resolution, requests and final cache included, in terms of the graph traversal |
| Resolution.ResolvesExactly | authorization.go:62-103 | for every network, cache and source: exact closure, exact failure, no duplicates, sources in step with IDs, post-order, and a topological order iff acyclic |
| Resolution.OnlyCreditsSkipped | authorization.go:84-86 | for every network, cache and source, and in both traversals: `credits.aleo` is never requested, visited or collected, and on success every other import of the source is collected |
| Resolution.CreditsNeverReachable | authorization.go:83-86 | no path of imports goes through the skipped program |
| Resolution.CacheShadowsNetwork | authorization.go:140-144 | whatever the cache holds, cached resolution is uncached resolution on the network it shadows |
| Resolution.CacheTransparent | authorization.go:139-153 | an agreeing cache changes nothing but the requests, saves exactly those for programs it held, still agrees afterwards and only grows |
| Resolution.OneRequestPerProgram | authorization.go:139-153 | a successful run sends one request for each transitive import that was not cached; a repeat run sends none and ends in the same state |
| Resolution.RepeatRun | authorization.go:140-144 | with every program cached nothing is requested and the cache stays as it is |
| Resolution.AskedExactly | authorization.go:62-103 | on success the fetched programs are exactly the transitive imports, each once |
| Resolution.MapRefinesVisit | authorization.go:106-135 | the traversal into a map does what the graph traversal does, from any visited set and map |
| Resolution.TraversalsAgree | authorization.go:105-135 | both traversals succeed together; the map's keys are the collected IDs and its values their sources |
| Resolution.OrderDefined | authorization.go:123-132 | even a failed traversal has collected only programs it could fetch |
| RustProcess.Process.Load | rust-bridge/src/authorize.rs:66-67 | a fresh process holds `credits.aleo` and nothing else |
| RustProcess.Process.AddProgram | rust-bridge/src/authorize.rs:73-75 | a program is added iff its imports are loaded; otherwise the process is unchanged |
| RustProcess.Process.AddPrograms | rust-bridge/src/authorize.rs:69-82 | the import loop computes the fold over the list and stops at the first failure |
| RustProcess.AddsAllIff | rust-bridge/src/authorize.rs:69-82 | for every parser: the fold loads the list iff each source parses and has its imports loaded before it, and then holds exactly those programs |
| RustProcess.ReadLoadsIff | rust-bridge/src/authorize.rs:69-82 | the same in terms of the imports that snarkVM reads in each program |
| RustProcess.FreshProcessLoadsIff | rust-bridge/src/authorize.rs:66-82 | from a process with credits.aleo only, the imports are loaded in time iff the list is in topological order |
| Authorization.ListWalk.FetchProgramCached | authorization.go:139-153 | the fetch and its effect on the cache and the requests |
| Authorization.ListWalk.CollectImports | authorization.go:71-103 | the line loop with its shared visited set, list and cache computes `Resolver.Collect`, and terminates on every network |
| Authorization.MapWalk.CollectImportsMap | authorization.go:106-135 | the line loop into a map computes `Resolution.CollectMap`, and terminates on every network |
| Authorization.NetworkClient.GetProgramImports | network_client.go:161-168 | the collected map, or an error exactly when the traversal fails |
| Authorization.CallBridge | rust-bridge/src/authorize.rs:53-94 | parsing the two lists and loading imports and target, up to the call of authorize and its arguments |
| Authorization.BuildAuthorizationWithCache | authorization.go:23-57 | the request ends as `Build` says, with its requests sent and its cache filled |
| Authorization.BuildEndsExactly | authorization.go:23-57 | the five ways a request ends exclude one another and cover everything, on every network, cache and parser; it reaches snarkVM iff there is a key, the inputs are not nil, everything can be fetched and every source handed over parses to a program whose imports precede it; the process then holds exactly those programs and credits.aleo, and authorize is called with the caller's key, function and inputs and the target's ID |
| BuildTraffic.BuildTrafficIs | authorization.go:23-38 | however a request ends: without a key nothing is requested and the cache is unchanged; otherwise it requests, in visiting order, those of the target and the imports visited that are not cached, and the cache afterwards is the old one with those that the network has added, none replaced |
| BuildTraffic.VisitedAreReachable | authorization.go:34-38 | when all can be fetched, the imports visited are the transitive ones, each once |
| BuildTraffic.CachedAsksNothing | authorization.go:139-144 | with target and imports in an agreeing cache nothing is requested and the cache stays as it is |
| BuildTraffic.RepeatAsksNothing | authorization.go:139-152 | from an agreeing cache, repeating a request whose programs could be fetched requests nothing, leaves the cache as it is and ends the same way |
| Authorization.ReadyIffTopological | authorization.go:34-51 | a request reaches snarkVM iff, besides key, inputs and fetches, the collected programs followed by the target are in topological order of the imports that snarkVM reads; the process then holds the target, its transitive imports and credits.aleo |
| Authorization.ReadyIffAcyclic | authorization.go:34-51 | where snarkVM reads the imports the scanner reads, iff no cycle of imports is reachable |
| Authorization.MissedImportFails | authorization.go:71-81 | an import that snarkVM reads in the target or a collected program, and that was not collected, is fatal |
| Authorization.SecondStatementIsFatal | authorization.go:71-81 | a target whose source begins with two imports on one line, whatever import-free text follows, fails on the Rust side although everything can be fetched and nothing is cyclic |
| Authorization.BridgeLoads | rust-bridge/src/authorize.rs:53-94 | the Rust side accepts the printed lists iff the inputs are not nil and every source parses to a program whose imports precede it; what it then holds, and the arguments of authorize |
| Authorization.TextsCross | authorization.go:40-51 | the Rust side works on the very lists that the Go side holds, and on the key, the target and the function name up to their first NUL |
| Authorization.TargetLast | rust-bridge/src/authorize.rs:78-82 | adding the target last keeps a topological order topological, and cannot mend another one |
| Batch.StepInv | program_manager.go:348-364 | every step of every goroutine keeps the invariant: phases, results and writes in step, semaphore and wait group equal to the counts they stand for, cache in agreement |
| Batch.ScheduleInv | program_manager.go:348-364 | the invariant holds after every schedule |
| Batch.StepCache | authorization.go:145-152 | each load, fetch and store keeps the shared cache in agreement with the network, and it only grows |
| Batch.AtMostEightExecute | program_manager.go:344-359 | at every point of every schedule the semaphore counts the goroutines between acquire and release, at most eight, and no result slot is written twice |
| Batch.ReturnsAtMostOnce | program_manager.go:354-360 | at every point the results returned to a goroutine are the one its phase carries, or none |
| Batch.JoinedMeansDone | program_manager.go:355-363 | past Wait every goroutine is done, every slot was written once and the semaphore is empty |
| Batch.BatchReturnsOwnResults | program_manager.go:348-364 | past Wait, slot i holds the one result that request i's own Execute returned |
| Batch.SoloUnique | authorization.go:139-153 | a request has at most one complete run on a given network |
| Batch.AnswersIndependentOfSchedule | program_manager.go:348-364 | any two schedules from any two agreeing caches give each request the same answers, those of running alone |
| Batch.CacheOnlyGrows | authorization.go:139-153 | along a schedule the shared cache only grows and agrees with the network at every point |
| Batch.CacheHoldsAnswers | authorization.go:139-152 | at every point of every schedule the shared cache holds what it started with, each successful answer that any goroutine has received, under the ID it was asked for, and nothing else |
| Batch.CachedIsNotFetched | authorization.go:140-145 | once a program is cached, a goroutine that is not already on its way to the network never asks it for that program |
| Batch.AcquireIff | program_manager.go:350-356 | a waiting goroutine can go on exactly while fewer than eight hold a slot |
| Batch.Progress | program_manager.go:352-362 | no deadlock: until the caller is past Wait, some step is enabled |
| Batch.StepDecreases | program_manager.go:352-362 | every step lowers one measure of the whole batch |
| Batch.SchedulesAreBounded | program_manager.go:348-364 | every schedule is finite, bounded by the initial measure, for any number of requests |
| Batch.StuckMeansJoined | program_manager.go:362-363 | a schedule that cannot go on has returned from Wait |
| BatchResolution.ReplayFollowsVisit | authorization.go:71-103 | fed with the network's answers, the answer-driven traversal does what the graph traversal does, from any visited set, and leaves the other answers unread |
| BatchResolution.ReplayWants | authorization.go:83-95 | fed with only the first answers, it waits for the next program of the graph traversal |
| BatchResolution.PlanIsResolution | authorization.go:28-38 | what a request fetches alone is the program and then what resolution without a cache asks for |
| BatchResolution.SoloFollowsPlan | authorization.go:28-38 | every history of a request running alone is a beginning of the answers to that plan |
| BatchResolution.AskedBounded | authorization.go:83-92 | a traversal fetches at most one program more than the network has |
| BatchResolution.BatchOfHalts | program_manager.go:352-361 | a batch of resolutions meets the condition for termination: no request fetches more than two programs beyond the network's |
| BatchResolution.BatchResolvesAsAlone | program_manager.go:348-364 | however goroutines interleave on the shared cache, each has received the sources that its own uncached resolution fetches, in order, and resolved them to the same list, or to a failure at the same program |
| BatchResolution.BatchFillsCache | program_manager.go:348-364 | past Wait the shared cache holds exactly what it started with and the programs of all requests and their imports that the network has |
| BlockIteration.BlockIterator.Next | network_client.go:538-577 | one call updates cursor, buffer, index, block and error as `Advance` says, and sends the one request it says, or none |
| BlockIteration.YieldsReceivedBlocks | network_client.go:543-576 | with any node, from any state: blocks yielded, then those left in the buffer, are those buffered before, then the batches received; none is lost, repeated or reordered |
| BlockIteration.YieldsPrefixOfBatches | network_client.go:543-576 | with any node a fresh iterator yields a prefix of the received batches |
| BlockIteration.RestIsSilent | network_client.go:539-553 | after a failed fetch, or past the range, Next is false for ever, sends nothing and changes nothing |
| BlockIteration.FailureIsFinal | network_client.go:539-565 | a failed fetch is the last request: from then on Next is false, and nothing but the error has changed, the current block included |
| BlockIteration.EmptyBatchNotSticky | network_client.go:550-573 | an empty batch gives one false and keeps the block; the next call requests the following range, and only if there is none does the iterator stay silent |
| BlockIteration.RequestsPartitionRange | network_client.go:555-567 | with any node, if nothing overflows, the requests are the consecutive pieces of fifty of the range, never more than ceil(size/50) |
| BlockIteration.WholeRangeRequested | network_client.go:555-567 | with an exact node, reading the range takes exactly ceil(size/50) requests |
| BlockIteration.NextMakesProgress | network_client.go:538-577 | for end <= 2^64-50 each call fails for good, finds the range exhausted, or lowers (remaining range, unread buffer) |
| BlockIteration.ComesToRest | network_client.go:538-577 | on every range that does not overflow, from any state on the way, whatever the node answers, some number of calls brings the iterator to rest |
| BlockIteration.SmallEndComesToRest | network_client.go:538-577 | so does every fresh iterator with end <= 2^64-50 |
| BlockIteration.SmallEndFits | network_client.go:556-567 | for end <= 2^64-50 nothing overflows |
| BlockIteration.YieldsOnward | network_client.go:538-577 | with an exact node, from any point of a batch, n more calls yield the next n blocks |
| BlockIteration.TrueWhileBlocksLeft | network_client.go:538-577 | with an exact node, from any point of a batch, Next is true exactly while blocks are left |
| BlockIteration.OverflowSkipsLastBatch | network_client.go:556-573 | when the end of the last batch overflows, Next is false where its first block is due, and unless the node refuses the reversed range there is no error and the cursor drops below height fifty |
| BlockIteration.OverflowRestarts | network_client.go:567 | at end = 2^64-1 the cursor wraps: past the range the iterator goes on with the block of height 0 |
| BlockIteration.IteratesRangeIff | network_client.go:526-577 | with an exact node the iterator is the loop over [start, end], each height once and in order, exactly when neither overflow happens |
| Retry.RetryingClient.Get | network_client.go:436-501 | body, error, requests and sleeps of the loop, for every history of replies, cancellations and limiter errors; the outcome and the number of requests as in `Retry.GetEnds` |
| Retry.GetEnds | network_client.go:438-500 | every call, interrupted or not, ends at the first attempt that does not go on: a backoff or Retry-After cut short gives the context's error, a limiter error is returned without a request, a 200 gives its body, any other status below 500 but 429 is the error; after only transport errors, read errors, 429s and statuses from 500 on, the last error is returned |
| Retry.ServerErrorRetried | network_client.go:482 | a 500 followed by a 200 gives the body of the 200 |
| Retry.DelayExactIff | network_client.go:440 | for every base delay, negative ones too, the backoff is the exponential one exactly when that one fits in an int64 |
| Retry.LongBackoffIsNegative | network_client.go:440 | a base of 500 ms overflows to a negative delay at the 36th retry |
| Retry.HonouredExactIff | network_client.go:484-490 | a Retry-After is waited for as long as it says exactly when its nanoseconds fit in an int64 |
| Retry.LongRetryAfterIsNegative | network_client.go:484-490 | a Retry-After of 9223372037 seconds becomes a negative duration |
| Retry.GetReturnsFirstFinal | network_client.go:468-500 | the result is that of the first reply that is not retried, which ends the requests; failing that, the last error after maxRetries+1 requests |
| Retry.RequestsBounded | network_client.go:438 | whatever happens, at most maxRetries+1 requests are sent |
| Retry.NegativeRetriesReturnNothing | network_client.go:438-500 | neither body nor error is returned exactly when the retry count is negative |
| Retry.SomethingReturned | network_client.go:438-500 | otherwise a body is returned exactly when no error is |
| Retry.SleepIsExponential | network_client.go:439-494 | where no backoff overflows, a call with r requests sleeps baseDelay*(2^(r-1)-1) plus the durations made of the honoured Retry-After headers, the last reply's included; where none of those overflows either, they are the seconds the headers say |
| Decimal.GetPublicBalance | network_client.go:425-432 | a balance n is returned exactly for the values that spell n below 2^64: a numeral with or without `u64`, quoted any number of times, padded with blanks; any other value is an error |
| Decimal.PrintParses | program_manager.go:197 | a printed amount is read back |
| Decimal.NumeralGrows | program_manager.go:197 | a number is printed in decimal, most significant digit first, without leading zeros |
| Decimal.ValueGrows | network_client.go:428 | a numeral is read digit by digit, leading zeros included |
| Decimal.BalanceReadsLiteral | network_client.go:425-432 | a quoted, padded `u64` literal is read as its amount exactly when that fits in 64 bits |
| Proving.TokenCache.GetJWT | provable_client.go:112-128 | a cached token with more than 300 seconds left is returned and nothing changes; otherwise the header of a 200 or 201 answer is returned and cached if it is not empty, and without one the call is an error and changes nothing |
| Proving.OtherwiseFetched | provable_client.go:120-161 | a fetched token is cached with its exp claim as expiry, or an hour from then without a usable one |
| Proving.TokenIsServedOn | provable_client.go:116-118 | while a cached token has more than 300 seconds left, every call of any history returns it and leaves it cached |
| Proving.FetchedTokenServedOn | provable_client.go:112-128 | after a call that fetched a token, every call more than 300 seconds before its expiry returns the same token |
| Proving.CachedTokenWasFetched | provable_client.go:116-127 | after any history the cached token is one that some call fetched, with that token's own expiry |
| Proving.ServedTokenIsAlive | provable_client.go:116-123 | a token served from the cache was fetched by an earlier call and has more than five minutes left; a failed call leaves the cache unchanged |
| Proving.FetchesAreSpaced | provable_client.go:112-128 | with a token cached, n further fetches take at least n times (life - 5 min) |
| Proving.FetchesAreRare | provable_client.go:112-128 | if tokens live L > 5 min, calls within a span T fetch at most 1 + T/(L - 5 min) tokens, wherever in a run the span lies and whatever is cached when it begins |
| Proving.ShortTokensNeverCached | provable_client.go:107-118 | tokens that live five minutes or less are never served from the cache |
| Proving.SubmitProvingRequestSafe | provable_client.go:247-290 | result, submissions and backoffs of the submission loop for every history of answers |
| Proving.SubmitReturnsFirstSettled | provable_client.go:258-289 | the result is that of the first submission not answered with 500 or 503, the last one sent; failing that, a made-up 503 after maxRetries+1 submissions |
| Proving.SubmitEnds | provable_client.go:258-289 | every call, interrupted or not: at the first backoff cut short the context's error, at the first answer other than 500 and 503 what it says, and failing both the status 503 with "max retries exceeded" |
| Proving.AnswerRead | provable_client.go:367-418 | an answer 200 or 201 is a success iff its body is a proving response, any other is a failure with its status and its message, its body or its status as the text |
| Proving.SubmitSleepIsExponential | provable_client.go:258-289 | without overflow a live call sends between 1 and maxRetries+1 submissions, and sending n takes baseDelay*(2^(n-1)-1) of backoff |
| Json.UnescapeInverts | authorization.go:41-48 | each character is read back from its escape, as serde_json or Go prints it, whatever follows |
| Json.UnquoteInverts | authorization.go:41-48 | a printed string literal is read back, up to its closing quote, for every text |
| Json.PrintedPlainIff | authorization.go:41-48 | which characters are printed as they are; Go escapes five more than serde_json |
| Json.ShortForms | rust-bridge/src/helpers.rs:13-16 | the seven characters with a two-character escape |
| Json.SurrogatePairRead | rust-bridge/src/authorize.rs:54-64 | a character outside the basic multilingual plane is read from a pair of escapes |
| Json.ControlRefused | rust-bridge/src/authorize.rs:54-64 | a string with a raw control character in it is refused |
| Json.ListReadIff | rust-bridge/src/authorize.rs:54-64 | a printed list is read back if only blanks stand around it, and refused with any other text behind it |
| Hex.HexValueIs | security.go:56-59 | hexadecimal digits are read in either case, and nothing else is |
| Json.EscapedIsPrintable | rust-bridge/src/helpers.rs:13-16 | escaped text holds no control character, so no NUL |
| Json.ParseItemsInverts | rust-bridge/src/authorize.rs:54-64 | printed strings are read back in order if only blanks follow the array, and refused otherwise |
| Json.CStringIntact | rust-bridge/src/helpers.rs:22-27 | a text survives as a NUL-terminated string exactly when it holds no NUL |
| Json.ListCrosses | authorization.go:40-51 | a list arrives in Rust as it was, exactly unless it is the nil slice |
| Envelope.EnvelopeRead | rust-bridge/src/helpers.rs:13-16 | a printed envelope holds no NUL, starts with the error prefix and is read back as its message |
| Envelope.EnvelopeText | rust-bridge/src/helpers.rs:13-16 | the envelope of a text without quotes, backslashes and control characters, literally |
| Envelope.EnvelopeDelivered | internal/ffi/bridge.go:60-79 | what the Go side makes of an envelope: its message as an error, or the text itself if the message is empty |
| Envelope.ErrorDelivered | rust-bridge/src/helpers.rs:54-66 | an error arrives as that error exactly when its text is not empty; an empty one arrives as a success |
| Envelope.PanicDelivered | rust-bridge/src/helpers.rs:60-64 | a panic arrives as an error with the message given for it, if that is not empty |
| Envelope.ValueDelivered | internal/ffi/bridge.go:60-79 | a success arrives unchanged exactly when it holds no NUL and is not taken for an error; with a NUL it arrives empty |
| Envelope.OrdinaryValueDelivered | internal/ffi/bridge.go:70-79 | every NUL-free text without the error prefix, and that prefix alone, arrives unchanged |
| Envelope.EnvelopeAsValue | rust-bridge/src/helpers.rs:60-64 | a success that is itself an envelope is handed over like that error and arrives as it |
| Base64.DecodeInverts | rust-bridge/src/authorize.rs:162 | base64 decoding undoes encoding for every byte string |
| Base64.EncodedIsPlain | rust-bridge/src/authorize.rs:162 | encoded text uses the base64 alphabet only |
| Base64.SymbolIs | rust-bridge/src/authorize.rs:162 | the alphabet of section 4 of RFC 4648 |
| Base64.GroupIs | rust-bridge/src/authorize.rs:162 | three bytes are four groups of six bits, from the highest on, and shorter groups are padded |
| Base64.TestVectors | rust-bridge/src/authorize.rs:162 | three test vectors of section 10 of RFC 4648 |
| Base64.DecodedIsPlain | provable_client.go:323-326 | only whole groups of characters of the alphabet are decoded |
| Base64.HexDecodeInverts | security.go:56-66 | hexadecimal decoding undoes encoding |
| Base64.HexDecodeIff | security.go:56-62 | exactly the texts of an even number of hexadecimal digits are decoded, two digits to a byte |
| ProvingRequest.WriteRequest | rust-bridge/src/authorize.rs:143-160 | the bytes are the authorization, 1 and the fee authorization or 0, and the broadcast flag; with a self-delimiting authorization codec they are read back as the request |
| ProvingRequest.LayoutRead | rust-bridge/src/authorize.rs:143-160 | every request is read back from its layout |
| ProvingRequest.LayoutUnique | rust-bridge/src/authorize.rs:143-160 | no two requests share a layout |
| ProvingRequest.InjectiveCodecIsNotEnough | rust-bridge/src/authorize.rs:143-160 | without a self-delimiting authorization codec two requests can share a layout |
| ProvingRequest.SealedBoxEncrypt | security.go:20-46 | the filled frame is the ephemeral key followed by the box under the derived nonce |
| ProvingRequest.SealedBoxDecrypt | security.go:76-101 | a frame is opened under the nonce derived from the key it carries; short frames are refused |
| ProvingRequest.SealedOpens | security.go:20-101 | what is sealed for a key is opened by its owner and is 48 bytes longer |
| ProvingRequest.EncryptProvingRequest | security.go:55-73 | an error exactly for a key that is not 32 bytes of hexadecimal; otherwise a base64 text that the owner of the key decodes and opens to the data |
| ProvingRequest.EncodedDelivered | provable_client.go:319-326 | base64 text comes through the bridge unchanged |
| ProvingRequest.SerializedArrives | provable_client.go:319-331 | a request that is laid out, sealed and encoded is recovered by the owner of the key |
| ProvingRequest.CiphertextIs | provable_client.go:315-331 | the submitted ciphertext is the sealed layout of the request that the texts denote, or an error |
| ProvingRequest.EncryptedDeliveryIs | provable_client.go:309-350 | the prover recovers from the encrypted body exactly the request that the texts denote |
| ProvingRequest.PathsAgreeIff | provable_client.go:292-350 | the encrypted and the plain path deliver the same request, or both none, exactly unless the fee of a readable request is a literal null or an empty non-nil text |
| ProvingRequest.NullFee | provable_client.go:292-350 | a fee that is a literal null is no fee on the plain path and an error on the encrypted one |
| ProvingRequest.EmptyFee | provable_client.go:315-326 | a fee that is empty without being nil is an error on the plain path and no fee on the encrypted one |

## Left out

- HTTP itself: URLs, headers, errors from building a request, the rate limiter's inside and clocks. Each is a value of
  the response history.
- `Retry.RetryingClient.Get`: a Retry-After header is given as the integer it denotes, if any; the sleeps that a
  cancellation cuts short are not counted.
- `Retry.DelayExactIff`: beyond 2^62 the conversion of the power to an integer is the one of amd64; Go leaves it to the
  platform.
- `Authorization.BuildEndsExactly`: stops where authorize is called, and takes the private key and the inputs as ones
  that snarkVM can parse; a failure to parse them would be one more bridge error.
- snarkVM: proofs, hashes, the authorization itself. Only what "Assumptions" says is used of it.
- `ImportHeader.HeaderReadIff`: a program ID is any word without a semicolon other than `import`; snarkVM's own rules for
  IDs, and where it allows comments, are not modelled. A separating text with an import line in it, as a block comment
  may have, is outside the theorem: that line is read like any other (`LineByLine`, `ImportReadIff`).
- Text encoding: texts are sequences of Unicode scalar values; invalid UTF-8 and null pointers at the boundary are not modelled.
- `Json.UnquoteInverts`: is about printed literals. On a lone surrogate escape, which no printer emits, the model's
  parser fails as serde_json does, where Go substitutes a replacement character.
- `Base64.DecodeInverts`: Go's decoder also skips line breaks, which encoded text does not contain.
- `ProvingRequest.PathsAgreeIff`: is stated for JSON texts, so without NUL. The plain body is modelled by the texts in
  it; Go compacts them while printing, which is taken not to change what they denote.
- The strength of the box, and failures of the random source. Keys and the ephemeral secret are parameters.
- The exp claim of a token is an abstract reader with the one-hour fallback.
- `Batch.ScheduleInv`: atomic steps on shared variables stand for Go's memory model. What Execute does besides fetching
  programs is one step with an arbitrary result.
- A cache for the traversal into a map: its only caller passes none.
- Cancellation during resolution counts as a failed fetch; the wording of wrapped errors is not modelled.
- GetProgram's and GetMappingValue's unquoting of the response body, which gives the source or value used here.
- Account formats and key encryption, records, view keys, signatures, hashes, WaitForTransaction, the JSON getters, and
  the wrappers that only fill in options (TransferPublic, Join, Bond, Prove and the like): one branch each.
