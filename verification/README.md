# Weather platform: verified models

Dafny 4.11 models of the parts of the weather platform whose correctness is an argument
rather than a glance: the position query and its geometry, exactly-once ingestion across two
stores, ensemble scores and weights, the binary wind tile, the GRIB index, and the cycle
lifecycle. `dafny verify dfyconfig.toml` checks everything.

Code that changes state step by step is modelled by classes and methods with loops; code made
of expressions by functions; concurrency by transition systems whose runs are lists of events.
Each method is proved against a specification function, and what the system promises is then
proved about that function, for every input or every run.
What a specification takes from constants, tables and field lists is stated once more on
fields, numbers and bytes, without those definitions (`ComesFrom` in `Wis2`,
`AdmissibleUnlessContradicted`, `Resolution`, `EncodedHeader`, `DecodeIff`, `LineFields`).

## What is modelled

**Position query** (`Trigonometry`, `GreatCircle`, `PositionQuery`). The route turns a
great-circle radius into a latitude band and one or two longitude ranges, reads the selected
rows in pages of 1000 and re-checks the true distance. The trigonometric functions are
parameters known by a few laws (the cosine difference formula, the cosine decreasing on a
half turn, the inverse functions, four special values); all else, including the
Cauchy-Schwarz bound behind the ranges, is derived. No observation strictly inside the radius
is ever dropped. At exactly the radius one point can be: an unsplit range that ends on the
antimeridian knows only one of the two spellings +180 and -180, and loses its tangent point in
the other one, and nothing else (`LossIsExact`, `BoundaryExample`). The paged route equals the
brute-force collection on every table if and only if the query is not of that shape
(`RouteRefinesReferenceIff`), and on a given table, whatever the query, if and only if no row
of the answer is at that point (`RefinesOnTableIff`).

**Ingestion** (`Observations`, `Admission`, `JsonlStore`, `RawStore`, `Journal`, `Pipeline`,
`Api`, `Wis2`, `ConsoleIds`, and the transition systems `AdmissionProtocol`, `RawStoreProtocol`,
`CrossStore`, with the consequences drawn in `AdmissionReturns`, `AdmissionCrashes`,
`AdmissionProgress`, `LogFiles` and `TemporaryNames`). The stores and the handlers are classes
and methods as one caller sees them. The transition systems interleave any number of threads,
processes and calls step by step, with crashes between any two steps; a call that runs
undisturbed does what the sequential method does (`SoloAdmission`, `SoloStore`). No run
deadlocks (`EveryCallCanReturn`), and a call that returned is in the history and its records
stay (`ReturnedCallIsHeldForever`). Four facts of the code are easy to miss.

- A crash can cut an admission short. The all-or-nothing comment on batches holds for conflicts,
  not for crashes: `CrashAtomicIff` says that a batch is crash-atomic exactly when it brings at
  most one new id, `HalfABatchRemains` shows half a batch left behind, and
  `CutOffersAreRepaired` that delivering it again completes it.
- A `store` call that finds its record already linked returns without a directory sync, so a
  power failure can take away a source that the log already names. `SurvivesPowerFailureIff`
  says over the events of a run exactly when it cannot, `LogCanOutliveItsSource` shows it
  happening. Likewise a digest gets a second publisher only after a power failure took the
  first one's entry (`TwoPublishers`).
- Such a call does not make the removal of its own temporary name durable either, so a power
  failure can bring the name back (`LeftoverIsOfAFinder`, `RemovedNameCanComeBack`).
- The log's own directory is never synced, neither when an append creates the file nor when a
  compaction replaces it. `RecordSurvivesIff` says which records of the log a power failure can
  take, and `AdmittedLogCanVanish` that before the first failure it can take all.

The order of effects of a notification is read off a ghost journal (`Journal`) into which the
store, the envelope parser, the fetcher, the claim verifier and the adapter each enter what they
do. The console and the API derive observation ids by different arithmetic;
`ConsoleIdIsApiId` shows that they agree, given that both are set up with one namespace.

**Scores and weights** (`RealArithmetic`, `RealSums`, `Scores`, `FairScores`, `Weights`). Over exact reals.
The energy form of the CRPS that the code computes is proved equal to its threshold form, the
integral of the Brier scores of the ensemble's own fractions. The fair form has a threshold form of
its own, and averages to itself when members are left out one at a time, which is what lets it
compare ensembles of different sizes. Kish's effective size is bounded
on both sides with the two cases of equality. Softmax with the maximum subtracted is proved
equal to softmax without, with the exponential as a parameter known by three laws.

**Wind tiles** (`Quantizer`, `VectorTiles`). The quantiser over exact reals, the 42-byte
big-endian header and interleaved signed 16-bit samples, byte by byte. A double is an opaque
eight-byte word behind a codec that may round or even refuse what it reads back; the round
trip says what a receiver makes of any such word, and how far rounding moves a sample.

**GRIB index to manifest** (`Text`, `Collecting`, `GribIndex`, `GribReparse`, `GribLines`,
`GribSelection`, `SourceManifests`). Line parsing character by character, byte ranges that
tile the object, exactly-one selection, and the bounded manifests the selected ranges go into.

**Cycle lifecycle** (`CycleLifecycle`). The readiness classifier and the transition table.
The two do not always fit: with a single minimum field that can arrive the classifier jumps
from missing to usable, which the table forbids. `ReadinessFitsLifecycleIff` gives the exact condition.

`Wrappers` and `Sequences` hold what the components share.

## Model

| member | source | states |
|---|---|---|
| GreatCircle.PrefilterIsSound | apps/operator-console/lib/weather.ts:608-658 | for every query point, radius in (0, 45] and observation at most the radius away, poles and antimeridian included: its latitude is in the box; when it is strictly inside the radius its longitude is in a range, without exception; at exactly the radius it is unless it is the one lost point |
| GreatCircle.LossIsExact | apps/operator-console/lib/weather.ts:608-658 | an observation is near and outside every range if and only if it is the tangent point in the spelling of the antimeridian that an unsplit range ending there does not know, and then its distance is exactly the radius |
| GreatCircle.RespelledDistance | apps/operator-console/lib/weather.ts:643-657 | an observation in that spelling is never nearer than the radius, and as near only at the tangent latitude |
| GreatCircle.RangesAreExact | apps/operator-console/lib/weather.ts:624-658 | the ranges, split or not, are exactly the longitudes whose offset around the globe is within the half-width, but for that spelling |
| GreatCircle.OffsetWithinRadius | apps/operator-console/lib/weather.ts:632-642 | away from the poles, any point whose distance cosine reaches the radius's has a longitude offset within the half-width arcsin(sin r / cos lat) |
| GreatCircle.LatitudeBand | apps/operator-console/app/api/edr/route.ts:98-101 | a point within the radius differs in latitude by at most the radius |
| GreatCircle.DistanceWithin | apps/operator-console/lib/weather.ts:608-622 | the clamped arccosine distance is within, or strictly within, the radius exactly when the unclamped cosine reaches, or exceeds, the radius's cosine |
| GreatCircle.TangentPointIsDropped | apps/operator-console/lib/weather.ts:643-657 | whenever an unsplit range ends on the antimeridian, some legal observation at distance exactly the radius is outside every range |
| GreatCircle.BoundaryExample | apps/operator-console/lib/weather.ts:624-658 | the concrete loss: centre (170, 0), radius 10, observation (-180, 0) |
| PositionQuery.BuildConditions | apps/operator-console/app/api/edr/route.ts:87-114 | the conditions pushed one by one select, among legal rows, exactly the rows the query asks for inside the box |
| PositionQuery.CollectPages | apps/operator-console/app/api/edr/route.ts:116-166 | the paging loop terminates and returns the first `limit` of the selected rows that are truly near: no row is skipped or repeated between pages |
| PositionQuery.ScanPage | apps/operator-console/app/api/edr/route.ts:127-163 | one page adds its near rows in order, up to the limit |
| PositionQuery.Get | apps/operator-console/app/api/edr/route.ts:26-179 | each invalid query gets its own error in the order of the checks, the unreadable interval first; a valid one gets a prefix of one plain filter of the table |
| PositionQuery.ReturnedRows | apps/operator-console/app/api/edr/route.ts:87-166 | every returned row is in the table, of an asked-for phenomenon, not quarantined unless asked for, inside the interval and within the radius; while the limit is not reached every such row is returned, but for one at the lost position |
| PositionQuery.RefusedFor | apps/operator-console/app/api/edr/route.ts:36-85 | each refusal is tied, both ways, to the first check that fails, with its bounds |
| PositionQuery.PositionFeatureCollection | src/weather_platform/api/edr.py:117-140 | the collecting loop is filter then take, with or without a limit, quarantine filtering included |
| PositionQuery.AcceptedExactly | apps/operator-console/app/api/edr/route.ts:98-137 | index plus re-check accepts a row exactly when the brute-force test does and the row is not at the one lost position |
| PositionQuery.RefinesOnTableIff | apps/operator-console/app/api/edr/route.ts:87-166 | for every query and every table of legal rows, the paged, indexed answer equals the brute-force answer if and only if no row of the latter is at the lost position |
| PositionQuery.RefinesWithoutLostRow | apps/operator-console/app/api/edr/route.ts:87-166 | for every query, of the failing shape too, a table with no row at the lost position is answered as by brute force |
| PositionQuery.RouteRefinesReferenceIff | apps/operator-console/app/api/edr/route.ts:87-166 | the paged, indexed answer equals the brute-force answer on every table of legal rows if and only if no unsplit range ends on the antimeridian |
| Observations.ContentMeans | src/weather_platform/api/main.py:173-189 | two records agree in content if and only if the one, given the other's ingestion time, source URL, receipt time, ingest time and trust state, is the other |
| Admission.AdmissibleIffConflictFree | src/weather_platform/api/main.py:200-223 | the one-pass check against a growing dictionary is the symmetric condition: no two records with one id, within the batch or between batch and log, differ in content |
| Admission.AdmissibleUnlessContradicted | src/weather_platform/api/main.py:173-223 | a batch is admitted if and only if no record of the log or the batch has the id of a batch record under another body, observation time, disposition, source id, publication time, digest, decoder version or licence |
| Admission.ContradictionRefuses | src/weather_platform/api/main.py:206-223 | in any log, repeated ids included, a batch record that differs in one of those fields from the last record of its id makes the whole batch fail |
| Admission.SelfContradictionRefuses | src/weather_platform/api/main.py:209-223 | so do two records of the batch itself that differ in one of those fields under one id, in any log |
| Admission.AdmissionKeepsIdsDistinct | src/weather_platform/api/main.py:206-225 | admission keeps log ids pairwise distinct and only appends |
| Admission.FirstRecordIsKept | src/weather_platform/api/main.py:173-189 | an id keeps the record it was first admitted with |
| Admission.AdmittedContentIsHeld | src/weather_platform/api/main.py:200-225 | after admission every id of the batch is held with the batch's content |
| Admission.AdmitInTurn | src/weather_platform/api/main.py:200-225 | admitting two batches in turn is admitting their concatenation |
| Admission.RedeliveryIsSkipped | src/weather_platform/api/main.py:200-225 | a batch with the contents of an admitted one is admitted and changes nothing |
| Admission.AdmissibleByContent | src/weather_platform/api/main.py:173-189 | two batches that agree in content record by record are admitted by the same logs: acquisition metadata never decides |
| Admission.RepeatChangesNothing | src/weather_platform/api/main.py:200-225 | in a history of offers, any of them cut short by a crash, offering the contents of a completed offer again changes nothing, whether it was admitted or refused and whatever came between |
| Admission.RepeatsCanBeLeftOut | src/weather_platform/api/main.py:200-225 | in any such history a repeat of a completed offer can be left out without changing the final log |
| Admission.RestIsOwed | src/weather_platform/api/main.py:200-225 | when a crash let only the first records of an admissible batch into the log, the batch is still admissible and exactly the other records are new |
| Admission.CutOffersAreRepaired | src/weather_platform/api/main.py:200-225 | however often the same contents are offered in a row and wherever crashes cut the offers short, one completed offer leaves, content by content, what one undisturbed admission leaves |
| Admission.SameBatchIsRepaired | src/weather_platform/api/main.py:200-225 | the very same batch offered again after a crash leaves the very same log |
| JsonlStore.JsonlObservationStore.Enter | src/weather_platform/storage/jsonl.py:29-41 | entering counts one level deeper; an inner entry keeps the descriptor it found |
| JsonlStore.JsonlObservationStore.Exit | src/weather_platform/storage/jsonl.py:42-49 | only the exit from the outermost level gives the lock up |
| JsonlStore.JsonlObservationStore.Append | src/weather_platform/storage/jsonl.py:51-59 | one record is added at the end of the file and the lock is as it was found, nested or not |
| JsonlStore.JsonlObservationStore.ReadObservations | src/weather_platform/storage/jsonl.py:61-73 | the records in file order, blank lines skipped, or the number of the first line that does not validate |
| JsonlStore.JsonlObservationStore.CompactAtomically | src/weather_platform/storage/jsonl.py:99-114 | compaction keeps the record sequence; a file that does not validate is reported and left alone |
| JsonlStore.ParseWritten | src/weather_platform/storage/jsonl.py:51-73 | records written after readable lines are read back, in order, after what was there |
| JsonlStore.ParseFailsAt | src/weather_platform/storage/jsonl.py:61-73 | reading fails with number k if and only if line k, counted from 1, is the first that does not validate |
| JsonlStore.ParseGives | src/weather_platform/storage/jsonl.py:61-73 | otherwise it gives the lines that are records, in order |
| JsonlStore.CheckBatch | src/weather_platform/api/main.py:206-223 | the dictionary loop accepts exactly admissible batches, yields exactly the new records, and on refusal names the first conflicting id |
| JsonlStore.AdmitObservations | src/weather_platform/api/main.py:200-225 | a batch is appended whole when conflict-free, in order and without repeats; a record whose id is in the log under another body, observation time, disposition, source id, publication time, digest, decoder version or licence makes the call refuse; any refusal leaves the file as it was; every exit leaves the lock as it was |
| AdmissionProtocol.StepKeepsInv | src/weather_platform/storage/jsonl.py:29-59 | every step of every thread, and every crash, keeps the lock invariant and the log's account of its sessions |
| AdmissionProtocol.OneHolderInEveryRun | src/weather_platform/storage/jsonl.py:29-49 | in every interleaving at most one thread of one process is inside a transaction, nested appends included, and its process holds the file lock |
| AdmissionProtocol.MutualExclusion | src/weather_platform/storage/jsonl.py:25-49 | two threads at positive depth are the same thread |
| AdmissionProtocol.AdmissionIsSerialisable | src/weather_platform/api/main.py:200-225 | in every run, crashes included, log ids are distinct, every session is of a batch that was called, and the log is the replay of the sessions in lock order, that is the history of their offers; when none was cut by a crash it is what admitting the same batches one by one, refused ones included, gives |
| AdmissionProtocol.RunExtendsLog | src/weather_platform/storage/jsonl.py:51-114 | in every run from every reachable state the log only grows at its end, through compactions, refusals and crashes |
| AdmissionProtocol.FirstRecordForever | src/weather_platform/api/main.py:173-225 | an id admitted at any point of any run keeps that record in every continuation |
| AdmissionProtocol.DoneForever | src/weather_platform/api/main.py:200-225 | every record of a session that completed is held, with its content, in every continuation of the run |
| AdmissionProtocol.SoloAdmission | src/weather_platform/api/main.py:200-225 | an undisturbed call finishes, leaves both locks free, and leaves the log that the sequential admission leaves |
| AdmissionReturns.ReturnedCallHasSession | src/weather_platform/api/main.py:200-225 | in every interleaving, a call that returned is among the replayed sessions, after all that were there when it was made: admitted whole, or refused exactly when it conflicted with the log at its turn |
| AdmissionReturns.ReturnedCallIsHeldForever | src/weather_platform/api/main.py:200-225 | a call that returned without a refusal has every record of its batch held, with its content, in every continuation, process crashes included, while the power stays on |
| AdmissionCrashes.CrashAtomicIff | src/weather_platform/api/main.py:200-225 | from any point of any run, an admissible batch is all or nothing in every continuation, crashes and other threads included, if and only if it brings at most one id that the log does not hold |
| AdmissionCrashes.CrashLeavesAPart | src/weather_platform/storage/jsonl.py:29-59 | for every batch with two or more new records a crash after the first append leaves the log with that record alone, which is neither the old log nor the admitted one |
| AdmissionCrashes.HalfABatchRemains | src/weather_platform/api/main.py:200-225 | the concrete case: two records, an empty log, one crash |
| AdmissionCrashes.OneRecordIsAtomic | src/weather_platform/api/main.py:239-250 | the admission of a single posted observation is all or nothing in every run |
| AdmissionCrashes.RepeatRepairs | src/weather_platform/api/main.py:200-225 | after that crash one undisturbed admission of the batch leaves the log that the first should have left |
| AdmissionProgress.EveryCallCanReturn | src/weather_platform/storage/jsonl.py:29-59 | from every state of every run each call under way can be brought to return by steps of threads alone |
| AdmissionProgress.NoDeadlock | src/weather_platform/storage/jsonl.py:29-49 | while a call is under way some thread can take a step: the two locks never deadlock |
| LogFiles.RecordSurvivesIff | src/weather_platform/storage/jsonl.py:51-114 | after any run of appends, compactions and power failures, a record of the log survives the next power failure, however it goes, if and only if one of its appends went to a file whose name was certain, that is unchanged since a power failure, or a power failure has left it in the log before |
| LogFiles.LossLeavesAPrefix | src/weather_platform/storage/jsonl.py:51-114 | in any run a power failure takes back no more than a tail of the log |
| LogFiles.FilesFollow | src/weather_platform/storage/jsonl.py:29-114 | in every run of threads and crashes the log is what the files written on the way say |
| LogFiles.AdmittedLogCanVanish | src/weather_platform/storage/jsonl.py:51-59 | until the power has failed once, every log that the protocol can reach, records of returned calls included, can be lost whole to one failure: the directory is never synced |
| RawStore.RawSourceStore.Store | src/weather_platform/storage/raw.py:84-127 | success means the digest's entry hashes to it; a refused entry is named for what is wrong with it, no file, too large, or other bytes; an entry present before or won by a rival is never replaced; no temporary name survives; only a publication syncs |
| RawStore.RawSourceStore.RereadEntry | src/weather_platform/storage/raw.py:112-118 | after losing the link, the call succeeds exactly when the winner is the same record |
| RawStore.RawSourceStore.Exists | src/weather_platform/storage/raw.py:137-148 | false means a well-formed digest with no entry; a pathological entry is an error, not absence |
| RawStore.RawSourceStore.Retrieve | src/weather_platform/storage/raw.py:150-156 | bytes come back exactly when a regular, small enough entry hashes to the digest, and they are its bytes |
| RawStore.PatternIff | src/weather_platform/storage/raw.py:9-39 | the pattern passes the prefix and 64 lower-case hexadecimal digits, and these with one line feed after them, and nothing else |
| RawStoreProtocol.StepKeepsInv | src/weather_platform/storage/raw.py:84-135 | every step of every concurrent call, every kill and every power failure keeps linked entries complete, synced and hashing to their names |
| RawStoreProtocol.WriteOnceStore | src/weather_platform/storage/raw.py:84-135 | in every run, power failures included, linked bytes hash to their name, no call reports corruption or disappearance, and a publisher returns only once its entry is durable |
| RawStoreProtocol.OnePublisher | src/weather_platform/storage/raw.py:106-120 | while the power stays on at most one call publishes a digest |
| RawStoreProtocol.TwoPublishers | src/weather_platform/storage/raw.py:106-120 | in any run, two calls that published one digest mean that a power failure took the entry of the first before the second published |
| RawStoreProtocol.RunKeepsEntries | src/weather_platform/storage/raw.py:84-127 | while the power stays on, a linked entry never changes or disappears |
| RawStoreProtocol.EveryReturnIsRetrievable | src/weather_platform/storage/raw.py:84-156 | while the power stays on, every normal return stays retrievable for the rest of the run |
| RawStoreProtocol.SurvivesPowerLossIff | src/weather_platform/storage/raw.py:123-135 | after any run, earlier power failures included, a record survives every further power failure if and only if, once it was linked, some call synced the directory, be it the publisher of another digest, or a power failure left the link in place |
| RawStoreProtocol.SettledBySync | src/weather_platform/storage/raw.py:123-135 | while the power stays on, that is a directory sync while the record was linked |
| RawStoreProtocol.SoloStore | src/weather_platform/storage/raw.py:84-127 | an undisturbed call adds its payload to a vacant digest and changes no other, as the sequential method does |
| RawStoreProtocol.UnsyncedReturnCanBeLost | src/weather_platform/storage/raw.py:96-127 | a concrete run in which a call returns normally and a power failure then removes its record |
| TemporaryNames.NameIsThereIff | src/weather_platform/storage/raw.py:99-127 | while the power stays on, the temporary name of a call that was not killed is in the directory exactly between making the file and removing the name, so no call that returned has left one |
| TemporaryNames.LeftoverIsOfAFinder | src/weather_platform/storage/raw.py:118-127 | in any run, a temporary name outlives the return of its call only after a power failure, and only for a call that did not publish |
| TemporaryNames.RemovedNameCanComeBack | src/weather_platform/storage/raw.py:112-127 | a concrete run in which a call returns normally and a power failure brings back the temporary name it had removed |
| Pipeline.IdentityNameIsInjective | src/weather_platform/ingestion/pipeline.py:12-22 | digest, decoder version and index can all be read back from the name, even when the version contains the separator |
| Pipeline.IngestSourceRecord | src/weather_platform/ingestion/pipeline.py:39-68 | the record is retained before it is decoded, so also when decoding fails; observation k of the result is the decoded one with the id of the name digest, version and k between bars, and nothing else of it changes; one foreign observation fails the record |
| Pipeline.IngestBatchIff | src/weather_platform/api/main.py:253-271 | a record brings a batch if and only if it decodes to observations that all refer to it and none of which is rejected; the batch is these observations under their derived ids and marked platform-verified, with nothing else changed |
| Pipeline.IngestedIdsAreDistinct | src/weather_platform/ingestion/pipeline.py:58-68 | one ingest result has pairwise distinct ids unless the UUID hash collides |
| Pipeline.DistinctSourcesDistinctIds | src/weather_platform/ingestion/pipeline.py:12-22 | ids coincide exactly for the same digest, decoder version and index, unless the UUID hash collides |
| ConsoleIds.DeterministicObservationId | apps/operator-console/lib/weather.ts:160-177 | the byte arrays filled and stamped in place hold the hash of namespace and name with the version and variant bits set |
| ConsoleIds.NibbleIff | apps/operator-console/lib/weather.ts:142-151 | the digits of a UUID text are read in either case, each as its own number |
| ConsoleIds.UuidRoundTrip | apps/operator-console/lib/weather.ts:142-158 | parsing a formatted id gives its bytes back |
| ConsoleIds.IdLayout | apps/operator-console/lib/weather.ts:173-176 | every id reads as a version 5 UUID of the standard variant (section 5.5 of RFC 9562) |
| ConsoleIds.IdSpellsHash | apps/operator-console/lib/weather.ts:160-177 | an id, parsed, is byte for byte the start of the hash of the namespace bytes and the name, but for the upper half of byte 6 and the two upper bits of byte 8 |
| ConsoleIds.OnlySixBitsStamped | apps/operator-console/lib/weather.ts:173-175 | stamping loses exactly six bits of the hash |
| ConsoleIds.ConsoleIdsAgreeIff | apps/operator-console/lib/weather.ts:160-177 | two console ids are equal exactly for the same digest, decoder version and index, unless the hash collides |
| ConsoleIds.StampsAgree | src/weather_platform/ingestion/pipeline.py:12-22 | setting version and variant by arithmetic on the 128-bit number is setting them in the seventh and the ninth byte |
| ConsoleIds.ConsoleIdIsApiId | apps/operator-console/lib/weather.ts:160-177 | the id the console spells, parsed, is the number the API derives by arithmetic on the 128-bit hash prefix, for the same digest, decoder version and index |
| ConsoleIds.SharedOnBothSidesIff | src/weather_platform/ingestion/pipeline.py:12-22 | two records share a console id exactly when they share an API id, whatever the hash does |
| Api.RequireRetainedSource | src/weather_platform/api/main.py:228-236 | passes exactly when the source can be retrieved; absence and faults are told apart |
| Api.CreateObservation | src/weather_platform/api/main.py:239-250 | an observation is accepted exactly when it is not rejected, its source is on record, the log is readable and nothing conflicts; otherwise the log is untouched; the log stays canonical |
| Api.IngestAndStore | src/weather_platform/api/main.py:253-271 | the batch admitted is the identified, platform-verified one, all or nothing; the source stays retained even when the record is refused; a rejected observation is reported exactly when one is decoded and none is foreign; the log stays canonical |
| CrossStore.StepKeepsInv | src/weather_platform/api/main.py:228-271 | every step of the stores, the handlers and the admission threads keeps sources retained for every logged or pending record |
| CrossStore.EveryLoggedRecordHasItsSource | src/weather_platform/api/main.py:228-271 | in every run without a power failure every logged observation's source is retrievable, it was not rejected and is marked platform-verified, although retention is checked outside the lock |
| CrossStore.SurvivesPowerFailureIff | src/weather_platform/storage/raw.py:123-135 | after any run the source of every logged record survives a further power failure if and only if each was synced, or came through a power failure, after it was linked |
| CrossStore.PostIsLogged | src/weather_platform/api/main.py:239-250 | over any log, an undisturbed post of an observation with a retained source has the effect of admitting that one record; when nothing conflicts its id is then held with its content |
| CrossStore.IngestIsLogged | src/weather_platform/api/main.py:253-271 | over any stores, an undisturbed ingest of a record that brings a batch makes its source retrievable and has the effect of admitting that batch |
| CrossStore.LogCanOutliveItsSource | src/weather_platform/api/main.py:228-250 | a concrete run after which the log names a source that a power failure removed |
| Wis2.IsValidCentreId | src/weather_platform/ingestion/wis2.py:37-46 | the boundary loop accepts exactly the texts with some dash whose left side is a registered domain and whose right side is a topic level |
| Wis2.CentreShapeIff | src/weather_platform/ingestion/wis2.py:26 | the broad centre shape is a non-empty text of lower-case letters, digits and dashes without a dash at either end |
| Wis2.TopicLevelIff | src/weather_platform/ingestion/wis2.py:22 | a topic level is a non-empty text of lower-case letters, digits and dashes without a dash at either end or two in a row |
| Wis2.DataTopicIff | src/weather_platform/ingestion/wis2.py:30-53 | a topic is valid if and only if it is channel/a/wis2/centre/data/policy/discipline and at least one more level, with the listed channels, policies and disciplines, a valid centre, and topic levels for the rest |
| Wis2.EnvelopeIff | src/weather_platform/ingestion/wis2.py:191-220 | an envelope is valid if and only if it names either core conformance or version v04, has one canonical link, over https and without credentials, and no update or deletion link |
| Wis2.AcceptedIff | src/weather_platform/ingestion/wis2.py:147-220 | a notification is accepted if and only if it has at most 8192 bytes, can be parsed, has such an envelope, describes its times in UTC by one instant or one ordered interval, and on the cache channel names the topic's centre |
| Wis2.Wis2NotificationConsumer.AcceptNotification | src/weather_platform/ingestion/wis2.py:282-295 | passes exactly when topic, receipt zone, size, envelope and cache centre are all valid; otherwise an invalid topic is reported first, then a receipt time without zone, then an unusable notification |
| Wis2.Wis2NotificationConsumer.Process | src/weather_platform/ingestion/wis2.py:276-315 | for every input and outcome the effects that the injected objects enter into one journal are a prefix of retain, read the envelope, fetch, retain, check the claim if there is one, retain, decode: the notification is on record when its envelope is read, at most one fetch happens and only after every check, the payload is on record when it is checked and decoded; how far the journal gets fixes, with the claim and the decoder, how the delivery ends; of the parsed message there is then exactly one canonical link, and observation k of the result is the record that the bytes at that link decode to at k, under the id of its digest, version and k, marked upstream if and only if the message has a claim, with the message's data id and publication time, the link's text and the receipt time, and otherwise unchanged; the claim holds |
| Wis2.Wis2NotificationConsumer.RetainAndAccept | src/weather_platform/ingestion/wis2.py:279-295 | every delivery that could be stored is on record before its envelope is read, which happens exactly when topic, receipt zone and size pass; it is refused exactly when some check does not pass |
| Wis2.Wis2NotificationConsumer.FetchAndProcess | src/weather_platform/ingestion/wis2.py:297-315 | one download is made; what it brings is on record before anything else happens to it, and nothing already retained is touched |
| Wis2.Wis2NotificationConsumer.VerifyIntegrity | src/weather_platform/ingestion/wis2.py:317-332 | no claim counts as unverified, a claim that holds as verified, and a claim that is not base64 or does not match is an error |
| Wis2.Wis2NotificationConsumer.ProcessPayload | src/weather_platform/ingestion/wis2.py:297-354 | every ending is tied to the journal: not stored, integrity error exactly when a claim is present and does not hold, not stored again, undecodable or returned; what is returned is, record by record and field by field, what the payload decodes to with the origin and the trust state that the message gives it |
| Wis2.SameDataSameContents | src/weather_platform/ingestion/wis2.py:297-354 | two deliveries of one data id and publication time that fetch the same bytes return observations that agree in content, record by record |
| Wis2.RedeliveryIsExactlyOnce | src/weather_platform/ingestion/wis2.py:276-354 | in any history of offers, any of them cut short by a crash, leaving out a later delivery of the data of a completed one, over whatever URL, receipt time and verification outcome, leaves the same log |
| Wis2.CrashedDeliveryIsRepaired | src/weather_platform/ingestion/wis2.py:276-354 | when crashes cut deliveries of the same data short, one that gets to its end leaves, content by content, what a single undisturbed delivery leaves |
| Wis2.FirstDeliveryIsLogged | src/weather_platform/api/main.py:200-225 | when the ids are new, what is logged is the first delivery itself, metadata included |
| Wis2.DeliveredExactlyOnce | src/weather_platform/ingestion/wis2.py:276-354 | after any number of deliveries of the same data to a log without their ids, the first of them completed, the log is the old one and the first delivery's records, metadata included |
| Scores.BrierIff | src/weather_platform/scientific/scores.py:7-11 | a probability, and nothing else, is scored, by the square of what it leaves to what happened |
| Scores.CrpsIntegratesBrier | src/weather_platform/scientific/scores.py:7-35 | on any sorted grid that holds members and observation, the energy-form CRPS is the integral of the Brier scores of the fraction of members at most each threshold, and every such fraction is a valid probability |
| Scores.IntegerCrps | src/weather_platform/scientific/scores.py:13-35 | for integer members, n squared times the CRPS is the sum over thresholds of (members at most t, less n once the observation is) squared |
| Scores.CrpsBounds | src/weather_platform/scientific/scores.py:23-35 | both estimators are non-negative, the fair one never exceeds the default, the default never exceeds the mean absolute error |
| Scores.CrpsFailsFor | src/weather_platform/scientific/scores.py:23-26 | scoring fails exactly for no members, and for one when fair |
| Scores.CrpsPermuted | src/weather_platform/scientific/scores.py:13-35 | both estimators, errors included, are invariant under permuting members |
| FairScores.FairIsSizeFree | src/weather_platform/scientific/scores.py:13-35 | the fair score may compare ensembles of different sizes: over the ensembles of n - 1 that leave out one of n members each, for any n of at least 3, it averages to the fair score of all n |
| FairScores.FairCrpsIntegrates | src/weather_platform/scientific/scores.py:13-35 | on any sorted grid that holds members and observation, the fair CRPS is the integral of the Brier scores, less c (n - c) / (n n (n - 1)) at a threshold that c of the n members do not exceed |
| FairScores.FairCorrection | src/weather_platform/scientific/scores.py:30-35 | with mean absolute error e, (n - 1) times (e less the fair score) is n times (e less the default one) |
| FairScores.FairOfTwo | src/weather_platform/scientific/scores.py:23-35 | the fair score of two members is the distance of the observation from the interval between them |
| FairScores.ScoreOfOne | src/weather_platform/scientific/scores.py:23-35 | the score of one member is its distance from the observation, and it has no fair score |
| Scores.BrierIsProper | src/weather_platform/scientific/scores.py:7-11 | the score is proper: the expected score is least for the true probability and for no other |
| Scores.PairwiseBound | src/weather_platform/scientific/scores.py:32-34 | the pairwise sum is at most 2 (n - 1) times the sum of distances to any one value |
| Weights.NormalizedShares | src/weather_platform/scientific/probability.py:31-39 | normalised weights sum to 1, are non-negative, and keep every weight's share of the total |
| Weights.NormalizeSucceedsIff | src/weather_platform/scientific/probability.py:31-39 | normalisation succeeds exactly when no weight is negative and one is positive |
| Weights.ScaleInvariance | src/weather_platform/scientific/probability.py:31-45 | multiplying all weights by a positive number changes neither the normalised weights nor the effective size nor the error |
| Weights.EffectiveSizeBounds | src/weather_platform/scientific/probability.py:42-45 | the effective size is between 1 and the number of positive weights; it is the latter exactly when they are equal and 1 exactly when there is one |
| Weights.KishFormula | src/weather_platform/scientific/probability.py:42-45 | on the weights as given, the effective size times the sum of their squares is the square of their sum |
| Weights.DependenceAdjustedWeights | src/weather_platform/scientific/probability.py:48-76 | valid input gives softmax of the logits although the maximum is subtracted first; invalid input gives the error of the first bad pair, loss before correlation |
| Weights.WeightRatio | src/weather_platform/scientific/probability.py:57-76 | one weight is another times the exponential of the loss scale times the other's excess loss plus the penalty times its excess positive correlation |
| Weights.SoftmaxExists | src/weather_platform/scientific/probability.py:74-76 | normalising the exponentials never fails |
| Weights.RatioIsTheirOwn | src/weather_platform/scientific/probability.py:72-76 | two weights are in the ratio of their own exponentials |
| Weights.OthersDoNotMatter | src/weather_platform/scientific/probability.py:48-76 | two candidates keep the ratio of their weights in any other field of candidates |
| Weights.SmallerLossWeighsMore | src/weather_platform/scientific/probability.py:57-72 | of two candidates penalised alike, the smaller loss has strictly the larger weight, and conversely |
| Weights.CorrelationIsPenalised | src/weather_platform/scientific/probability.py:69-72 | of two candidates with equal losses, the one with the more positive correlation has strictly the smaller weight; correlations at or below zero are not told apart |
| Quantizer.QuantizeIsFaithful | src/weather_platform/serving/vector_tiles.py:30-57 | finite components of any range are quantised, none of the guards fires, every restored value is within half a step, extremes come back exactly, and order is kept |
| Quantizer.Resolution | src/weather_platform/serving/vector_tiles.py:10-57 | 65534 steps of the scale span the range and the offset is its middle; the minimum is stored as -32767 and the maximum as 32767; every restored value is within (maximum - minimum) / 131068 of its original; a constant component has scale 1, its value as offset, and zeros |
| Quantizer.ClampIsIdle | src/weather_platform/serving/vector_tiles.py:44-50 | no value of the component is changed by the clamp |
| Quantizer.RequantizeIsSame | src/weather_platform/serving/vector_tiles.py:30-57 | quantising restored values gives the same scale, offset and levels, constant fields included |
| VectorTiles.EncodeVectorTile | src/weather_platform/serving/vector_tiles.py:60-100 | the method's bytes and errors are those of the specified encoding, which the next rows spell out byte by byte |
| VectorTiles.EncodedHeader | src/weather_platform/serving/vector_tiles.py:82-94 | an encoded tile begins with the bytes 57 56 45 43 01 00, big-endian width and height, and the doubles (maximum - minimum) / 65534, or 1 for a constant, and (minimum + maximum) / 2 of u and then of v; it has 42 bytes and 4 a sample |
| VectorTiles.EncodedSamples | src/weather_platform/serving/vector_tiles.py:40-57 | the two bytes of u at 42 + 4 i and of v at 44 + 4 i spell a level whose value is within (maximum - minimum) / 131068 of the sample: 80 01 for a minimum, 7F FF for a maximum, 0 in a constant component |
| VectorTiles.EncodeNamesFirstFault | src/weather_platform/serving/vector_tiles.py:69-80 | each refusal is tied, both ways, to the first check that fails; quantising never refuses |
| VectorTiles.PackSamples | src/weather_platform/serving/vector_tiles.py:95-100 | the buffer filled in place holds the interleaved big-endian samples |
| VectorTiles.HeaderLayout | src/weather_platform/serving/vector_tiles.py:7-12 | magic, version, flags, dimensions and the four doubles are at their byte positions, and the samples follow at byte 42 |
| VectorTiles.SampleReads | src/weather_platform/serving/vector_tiles.py:95-100 | the big-endian words of sample i, u before v, are at byte 42 + 4 i |
| VectorTiles.EncodeSucceedsIff | src/weather_platform/serving/vector_tiles.py:69-80 | encoding succeeds exactly for valid dimensions, matching counts and finite components |
| VectorTiles.DecodeVectorTile | src/weather_platform/serving/vector_tiles.py:103-152 | the loop with its early exit decodes every sample or reports a non-finite one |
| VectorTiles.DecodeIff | src/weather_platform/serving/vector_tiles.py:103-152 | a payload is accepted if and only if its first six bytes, its dimensions, its four doubles, its length and every sample pass, each condition stated on the bytes; the tile is then what those bytes spell |
| VectorTiles.DecodedSample | src/weather_platform/serving/vector_tiles.py:132-141 | a decoded value is the signed number at 42 + 4 i, or 44 + 4 i, times the scale plus the offset |
| VectorTiles.DecodeNamesFirstFault | src/weather_platform/serving/vector_tiles.py:106-139 | each refusal is tied, both ways, to the first check that fails |
| VectorTiles.ReadSamples | src/weather_platform/serving/vector_tiles.py:132-141 | both components are read in order, or none when any sample is not finite |
| VectorTiles.RoundTrip | src/weather_platform/serving/vector_tiles.py:60-152 | for any codec of doubles, decoding an encoded tile reads back its dimensions and every level of both components, in order; it fails exactly when a scale or offset is read back as not finite, a scale as not positive, or a value restored under them is not finite |
| VectorTiles.DecodedWithin | src/weather_platform/serving/vector_tiles.py:30-152 | whatever is decoded from an encoded tile keeps the order of samples and is within half a step of the original plus what rounding scale and offset adds |
| VectorTiles.DecodedWithinPart | src/weather_platform/serving/vector_tiles.py:30-152 | in numbers: every decoded sample is within (maximum - minimum) / 131068 of the original, plus 32767 times what rounding moved the scale and what it moved the offset |
| VectorTiles.ExactRoundTrip | src/weather_platform/serving/vector_tiles.py:60-152 | when scale and offset are doubles, decoding always succeeds, every sample within (maximum - minimum) / 131068 of the original and the extremes exact |
| VectorTiles.ReencodesToItselfIff | src/weather_platform/serving/vector_tiles.py:60-152 | encoding what was decoded from an encoded tile gives the same bytes if and only if the words of its offsets, and of the scales of its non-constant components, survive being read and written again |
| VectorTiles.AcceptedLength | src/weather_platform/serving/vector_tiles.py:118-130 | an accepted payload has exactly 42 bytes and 4 for each of its width times height samples |
| VectorTiles.PayloadIsDetermined | src/weather_platform/serving/vector_tiles.py:103-152 | two accepted payloads are the same bytes exactly when their dimension, scale and offset words and their decoded samples agree |
| GribIndex.ParseLine | src/weather_platform/acquisition/noaa/grib_index.py:66-94 | popping trailing empty parts one by one gives the specified entry or error for the line, for lines that end in colons too |
| GribIndex.ParseGribIndex | src/weather_platform/acquisition/noaa/grib_index.py:97-141 | the three passes with their early exits give the specified entries or the first error |
| GribIndex.CheckOrder | src/weather_platform/acquisition/noaa/grib_index.py:108-123 | the pass over previous message and offset finds the first fault |
| GribIndex.NoFaultIffInOrder | src/weather_platform/acquisition/noaa/grib_index.py:108-123 | no fault is found exactly when numbers are consecutive, offsets increase and all lie inside the object |
| GribIndex.AcceptedIndexTiles | src/weather_platform/acquisition/noaa/grib_index.py:97-141 | an accepted index tiles the object from its first offset to its end, numbered consecutively |
| GribIndex.EachByteInOneEntry | src/weather_platform/acquisition/noaa/grib_index.py:125-141 | each of those bytes is in exactly one entry |
| GribIndex.LengthsAddUp | src/weather_platform/acquisition/noaa/grib_index.py:40-42 | the lengths sum to the object size minus the first offset |
| GribIndex.SlicesReassemble | src/weather_platform/acquisition/noaa/grib_index.py:125-141 | the slices put together are the object from its first offset on |
| GribIndex.UnreachableChecks | src/weather_platform/acquisition/noaa/grib_index.py:85-130 | for every text neither an empty byte range nor a missing descriptor is ever reported |
| GribLines.PieceAt | src/weather_platform/acquisition/noaa/grib_index.py:67 | a piece is the text between two colons, stripped |
| GribLines.LineFields | src/weather_platform/acquisition/noaa/grib_index.py:66-94 | an accepted line gives its first two stripped pieces as numbers and, as fields, all its other non-empty stripped pieces in order, whatever colons it ends in |
| GribLines.LineAcceptedIff | src/weather_platform/acquisition/noaa/grib_index.py:66-87 | a line is accepted if and only if some piece from the third on is not empty and the first two are a positive and a non-negative number |
| GribLines.LineFaultIs | src/weather_platform/acquisition/noaa/grib_index.py:66-87 | a refused line is refused for the first reason that applies: no such piece, no number, not positive, negative |
| GribLines.PaddingIsIgnored | src/weather_platform/acquisition/noaa/grib_index.py:67-69 | any colons and blanks added at the end of any line leave what it parses to, errors included |
| GribLines.BreaksAreAlike | src/weather_platform/acquisition/noaa/grib_index.py:103 | each of the ten line ends that Python knows serves as well as any other: putting one in the place of another changes neither the entries nor the error |
| GribLines.OnlyTheseEndLines | src/weather_platform/acquisition/noaa/grib_index.py:103 | and no other character ends a line |
| GribLines.EntryIsItsLine | src/weather_platform/acquisition/noaa/grib_index.py:97-141 | entry k of an accepted index holds the numbers and the non-empty pieces of line k, from its offset to just before the next entry's, or the end of the object |
| GribLines.IndexAcceptedIff | src/weather_platform/acquisition/noaa/grib_index.py:97-130 | an index is accepted if and only if the object has a size, there is a line, every line is accepted, and the items are consecutive, increasing and inside the object |
| Text.ParseIntIff | src/weather_platform/acquisition/noaa/grib_index.py:73-78 | a number is runs of digits with single underscores between them, with at most one sign before; underscores do not count, and a minus sign negates |
| GribReparse.ReparseRoundTrip | src/weather_platform/acquisition/noaa/grib_index.py:66-141 | printing accepted entries as number:offset:descriptor lines and parsing again gives the same entries |
| GribReparse.PrintedLineReparses | src/weather_platform/acquisition/noaa/grib_index.py:66-94 | a printed line parses to the item it came from, whatever its line number |
| GribLines.PaddedLineReparses | src/weather_platform/acquisition/noaa/grib_index.py:66-94 | a printed line followed by any colons and blanks, as the provider writes it, parses to its item |
| GribSelection.SelectGribMessages | src/weather_platform/acquisition/noaa/grib_index.py:149-181 | the loop with its set of seen names gives the specified selection or the first error |
| GribSelection.SelectionSucceedsIff | src/weather_platform/acquisition/noaa/grib_index.py:144-181 | selection succeeds exactly when requirement names differ and each requirement matches at one position alone, and then returns those entries in the order of the requirements |
| GribSelection.SelectedMeans | src/weather_platform/acquisition/noaa/grib_index.py:144-181 | a selected message has its requirement's name and number, fields and range of the one entry among whose fields is, up to case, every stripped token; every other entry lacks one |
| GribSelection.SelectOneFails | src/weather_platform/acquisition/noaa/grib_index.py:153-170 | a requirement fails for a name seen before, for no entry that carries its tokens, or for several, each both ways |
| GribSelection.SelectionIgnoresOrder | src/weather_platform/acquisition/noaa/grib_index.py:149-181 | permuting the entries changes neither the selection nor the error, but for the order in which ambiguous matches are listed |
| SourceManifests.ManifestIff | src/weather_platform/domain/source_manifests.py:22-133 | a manifest is made exactly of a range inside its object, payload bytes of its length, index bytes, non-empty names, a non-negative forecast hour and times in order, and holds just these and the two digests |
| GribSelection.SelectedFitsManifest | src/weather_platform/domain/source_manifests.py:35-133 | a message selected from an accepted index never fails a manifest's range checks: a manifest is made exactly when the payload has the slice's length and the caller's own metadata is valid |
| GribSelection.FetchedSliceMakesManifest | src/weather_platform/domain/source_manifests.py:75-133 | the slice of the indexed object that a selected message names always makes a manifest, with that range and the digests of those bytes |
| CycleLifecycle.ArrivalsAreASet | src/weather_platform/domain/cycle_lifecycle.py:88-117 | neither order nor repetition of arrivals matters, for errors as for results |
| CycleLifecycle.StateMeans | src/weather_platform/domain/cycle_lifecycle.py:95-108 | usable is reported exactly when the minimum set has arrived, complete exactly when all has, missing exactly when nothing recognised has |
| CycleLifecycle.EvaluationSucceedsIff | src/weather_platform/domain/cycle_lifecycle.py:79-93 | evaluation succeeds exactly for a non-empty minimum set within the complete set and arrivals all in scope |
| CycleLifecycle.EvaluationFailsFor | src/weather_platform/domain/cycle_lifecycle.py:79-93 | each failure is tied, both ways, to the first thing that is wrong |
| CycleLifecycle.MissingIsWhatDidNotArrive | src/weather_platform/domain/cycle_lifecycle.py:95-117 | the available fields are the names that arrived; the reported missing fields are exactly those without an arrival, and each list is empty exactly when the state is usable, respectively complete |
| CycleLifecycle.ReadinessGrows | src/weather_platform/domain/cycle_lifecycle.py:70-117 | more arrivals never lower the reported readiness |
| CycleLifecycle.RatioMatchesState | src/weather_platform/domain/cycle_lifecycle.py:96-117 | the completeness ratio is within 0 and 1, 0 exactly when missing and 1 exactly when complete |
| CycleLifecycle.RatioCounts | src/weather_platform/domain/cycle_lifecycle.py:94-98 | the ratio times the number of complete fields is the number of them that arrived |
| CycleLifecycle.MayPrecede | src/weather_platform/domain/cycle_lifecycle.py:120-159 | the table by its columns: which states may come right before each state |
| CycleLifecycle.AnyReportFollowsDownload | src/weather_platform/domain/cycle_lifecycle.py:95-159 | whatever the classifier reports of a product is a legal next state of its download |
| CycleLifecycle.ReadinessFitsLifecycleIff | src/weather_platform/domain/cycle_lifecycle.py:70-169 | re-evaluating after every single arrival is a legal lifecycle run for every sequence of constructible arrivals if and only if there are two minimum fields or one that is blank and so never arrives |
| CycleLifecycle.AtMostEightChanges | src/weather_platform/domain/cycle_lifecycle.py:120-169 | no lifecycle run makes more than eight changes |
| CycleLifecycle.EightChangesHappen | src/weather_platform/domain/cycle_lifecycle.py:120-169 | a legal run of eight changes exists |
| CycleLifecycle.LeftForGood | src/weather_platform/domain/cycle_lifecycle.py:120-169 | a state once left never comes back |
| CycleLifecycle.SupersededWasUsable | src/weather_platform/domain/cycle_lifecycle.py:145-159 | a superseded cycle was usable earlier in its run |
| CycleLifecycle.QuarantineIsFinal | src/weather_platform/domain/cycle_lifecycle.py:156-158 | after quarantine there is only quarantine and expiry, never use |

## Left out

- IEEE rounding, overflow, underflow and non-finite arithmetic: numbers are exact reals. Guards against non-finite input are branches only where the code's own values can reach them over the reals.
- The values of sine, cosine, arccosine, arcsine, pi and the exponential: parameters known by the laws in `Trigonometry.Laws` and `Weights.Laws`.
- SHA-256, SHA-1, the value of the UUID namespace, base64, UTF-8 and case folding: functions passed in. Freedom from collisions is asked for the two inputs concerned, and only where a row says so.
- Text of timestamps, intervals and WKT points, and query parsing: times are integers, coordinates are numbers, the parsed query is the input, and whether the bounds of its interval could be read is part of it.
- JSON and model validation of observations and notifications, notification geometry included: parsing is a function that may fail. The fields of an observation that nothing here looks into are one text, `body`.
- Routing, problem responses, bearer tokens, actor identity, proxying: plumbing.
- Get: rows come from one fixed table in one fixed total order. The SQL orders by observation time alone, which leaves rows with equal times unordered between pages.
- Append: the operating system writes a line whole, as the store's comments assume; short writes, torn lines and a failing lock call are not modelled.
- Process: what is read or fetched is what the injected objects enter; their functions can be called past them, which the bodies here do not do.
- SurvivesPowerFailureIff: takes the log at its longest; a failure that also takes a tail of the log leaves fewer records to have a source.
- CompactAtomically: the temporary file that a failed compaction leaves behind is not modelled.
- EveryCallCanReturn: says that a return is always possible, not that a fair scheduler brings it about; neither lock is granted in order of arrival.
- WriteOnceStore: nobody but the store's callers writes into its directory. The sequential Store does admit one foreign entry per call, which is then never replaced.
- SelectionIgnoresOrder: the message of an ambiguous match lists message numbers in entry order, so only their multiset is claimed.
- ParseInt: ASCII digits only; Python also reads other decimal digits.
- Lines are cut at every line-break character; a carriage return and line feed give one blank line more, which is dropped with the other blank lines.
- Constructor checks of cycle scopes and field requirements (blank names, negative lead hours): single comparisons. Of arrivals only the blank name is modelled, where it matters.
- Pattern checks on manifest digests, entity tags and modification times: a computed digest always has the right form and the other fields are not checked against anything.
- `JsonlObservationStore.list`, `reliability_bins`, `validate_quantiles`, `readBoundedRequestBody`: one filter or one bounded loop each, with no property beyond their bodies.
- The model catalogue, verification ledger, transport trust, configuration, migrations and user interface: easy members or input and output.
- Decoding of GRIB and BUFR: adapters are functions that may fail.
