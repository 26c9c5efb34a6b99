# Verified model of the item catalog API

The service answers item, list and metadata reads from PostgreSQL through a
generational Redis cache, and an offline command publishes snapshots and then
invalidates the cache. This project models that behaviour in Dafny and proves
what the design promises about it. `dafny verify dfyconfig.toml` checks everything.

## How it is built

- `Protocol.dfy` is one transition system. Every Redis command, SQL statement
  and commit is one step of a total function `Step`; `Run` folds it over an
  arbitrary sequence of events, so a statement about `Run(q, es)` is a statement
  about every interleaving of any number of readers and ingestion runs. Any
  step may fail before or after it took effect (a commit or an INCR may succeed
  although its client sees an error), any data key may expire or be given any
  content by somebody else, and the generation pointer may be lost or
  overwritten. The committed versions, the publications, the version at which
  each generation was created (`floor`), the version at the latest INCR
  (`published`), the numbers created more than once (`reused`) and the keys given
  a well-formed payload from outside (`forged`) are history variables: no step
  decides on them.
- `ProtocolInvariant.dfy` proves what every step keeps. `ReadGuarantees.dfy`,
  `IngestionGuarantees.dfy`, `GenerationGuarantees.dfy`, `StoredAnswers.dfy`,
  `PublishedAnswers.dfy`, `StaleReads.dfy` and `SqlAnswers.dfy` draw the results
  about whole runs from it; `StaleRuns.dfy` holds two concrete runs that show where the promises end.
- `Deployment.dfy`, `ItemCache.dfy`, `ItemService.dfy` and
  `IngestionService.dfy` are the imperative code: classes whose methods issue the
  same commands in the same order as the source, with the same early exits.
  Each command records the event it stands for and must change shared state
  exactly as that event does, so every execution is a run of the transition
  system. Between two commands a method calls `Servers.Others`, whose contract
  lets all other actors do anything; a caller knows only that contract, never
  its body.
- `Catalog.dfy` is the write model, `ItemQuery.dfy` and `LiteralSearch.dfy` the
  query model, and `Decimal.dfy`, `Generation.dfy`, `CacheKeys.dfy`,
  `ListParameters.dfy` and `PreparedCacheSize.dfy` the encodings and bounds.

Assumptions, each visible in the statements that need it: the generation number
of the hit in question was not created twice, and its key was given no
well-formed payload from outside (`Trusted`; of other numbers and keys nothing is
assumed, and reuse is proved impossible while the pointer is neither lost nor
overwritten); the digest distinguishes the two parameter texts at hand;
lower-casing keeps the three LIKE marks and the collation is a total order; a
UTF-8 codec's encoder undoes its decoder. The database starts empty, as
migrated. Responses are typed values, and a payload that does not validate is
one of two garbage values.

Where the cache design note (tasks/spec-redis-cache.md:64-66) says that a random
initial generation keeps old entries from coming back after the pointer alone
is lost, the code is weaker: INCR of an absent key stores 1, so a loss between
the check and the INCR of `invalidate` starts again at 1.
`StaleRuns.OldEntriesComeBack` is a run from the empty database in which that
happens twice, the second run exits 0, and a read begun afterwards is answered
from before it. `GenerationGuarantees.ReusedExactly` says exactly when a number is
reused, `ReuseNeedsLoss` that this takes a loss or an overwrite, and
`StaleReads.OlderAnswersExactly` exactly when a read can then, or at any other
time, be answered from before a given version.

## Model

| member | source | states |
|---|---|---|
| ProtocolInvariant.StepKeeps | app/items/cache.py:173-280 | every Redis, SQL or environment event keeps the whole invariant: unforged entries and readers' values come from versions the database had, and from none older than their generation |
| ProtocolInvariant.Reachable | app/items/service.py:37-127 | the invariant holds after every finite run, for all interleavings and failure patterns |
| ReadGuarantees.FreshHits | app/items/cache.py:173-211 | a hit whose own key was not forged and whose own number was not created twice is exactly the database's answer at versions no older than the one current when that generation was created |
| ReadGuarantees.ReadAfterInvalidation | app/items/cache.py:190-192 | a read that has not passed its second check or queried yet answers from the version at the latest INCR or later |
| ReadGuarantees.ReadAfterPublish | scripts/ingest.py:87-91 | after exit code 0, no-op and retry included, open reads reflect every commit before that run's INCR |
| ReadGuarantees.MonotonicOnceInvalidated | app/items/cache.py:168-171 | of two reads of any resources, the later is older only with a commit that no INCR followed |
| StaleReads.MonotonicExactly | app/items/cache.py:168-171 | after an answer, an open read of the same resource can go back behind it exactly when something older is left under the pointer's generation; that takes a commit that no INCR followed |
| StaleReads.OlderAnswersExactly | app/items/cache.py:173-245 | in every reachable state a read can still be answered from before version `c` exactly when, under the pointer's generation, an acceptable older payload is stored or in the hands of a reader that returns, completes or writes it |
| StaleReads.RevivalNeedsReuse | app/items/cache.py:168-171 | an answer from before the pointer's generation was created needs a number that two events created |
| StaleRuns.ReadsCanGoBack | app/items/cache.py:241-245 | a run from the empty database, without loss, reuse or forgery: before the INCR a slow write-back replaces a newer entry, and a read begun after an answer from version 1 is answered from version 0 |
| ReadGuarantees.QuiescentHits | app/items/cache.py:110-166 | with no commit since the generation was created, a hit equals the uncached answer on the current tables and a list's two parts come from one version |
| ReadGuarantees.QuiescentEntries | app/items/cache.py:196-211 | the same for every payload acceptable under the current generation |
| ReadGuarantees.FailOpen | app/items/service.py:129-148 | every response, 404 included, that is not a forged hit is the cache-free service's at versions the database had, in statement order |
| ReadGuarantees.CacheNeverBreaksReads | app/items/service.py:22-28 | no pattern of Redis failures, losses or foreign writes makes a read fail whose own statements work |
| ReadGuarantees.WriteBackKeepsAnswer | app/items/service.py:48-53 | from the moment a response is to be written back its answer never changes, whether the write fails or not |
| ReadGuarantees.RowsPersist | app/ingestion/repository.py:73-85 | between any two committed versions no row disappears and ids and creation times stay |
| ReadGuarantees.ExistenceIsStable | app/items/service.py:37-53 | once any read of an id returned an item, no read still to query can report ITEM_NOT_FOUND |
| IngestionGuarantees.SerialInTimestampOrder | app/ingestion/service.py:31-45 | published timestamps strictly increase and each committed table is the fold of the snapshots published so far |
| IngestionGuarantees.MetadataDescribesItems | app/ingestion/service.py:39-44 | each committed version's metadata is that of the snapshot whose items were applied last, all of them and nothing else |
| IngestionGuarantees.IdentityIsStable | app/ingestion/repository.py:73-85 | over whole runs rows keep id and creation time and surrogate ids stay unique although aborted runs burn sequence values; each commit updates exactly its snapshot's rows at its transaction's time, creates the new ones then under ids above all earlier ones, and leaves every other row as it was |
| IngestionGuarantees.PublishesOwnTransaction | app/ingestion/service.py:31-45 | a run that holds the lock publishes, if ever, its own snapshot with the stamp taken before the lock, at its transaction's time |
| IngestionGuarantees.OnePublicationPerRun | app/ingestion/service.py:33-45 | every commit is one run's own snapshot and no run commits twice |
| IngestionGuarantees.StaleRunChangesNothing | app/ingestion/service.py:37-38 | a run that reaches the lock with a timestamp not later than the recorded one never publishes |
| IngestionGuarantees.OthersLeaveDatabase | app/ingestion/repository.py:44-45 | while a run holds the lock only its own events touch tables, sequence, log or lock |
| ProtocolInvariant.BatchKeeps | app/ingestion/repository.py:57-86 | a batch of a validated snapshot cannot fail for touching a row twice and extends the applied prefix |
| ProtocolInvariant.DescribeKeeps | app/ingestion/repository.py:103-112 | on the publish path the `last_sync` guard never suppresses the metadata write |
| GenerationGuarantees.NoLossNoReuse | app/items/cache.py:168-171 | without loss or overwriting the pointer is the newest number and no number is created twice |
| GenerationGuarantees.StepCreates | app/items/cache.py:258-262 | which number an event creates is read off the state before it; the event is a reuse exactly when that number was created before |
| GenerationGuarantees.ReusedExactly | app/items/cache.py:168-171 | over every run a number is reused exactly when two events create it: SET NX on an absent pointer, INCR of an absent pointer for 1, INCR of the predecessor, or an overwrite |
| GenerationGuarantees.ReuseNeedsLoss | app/items/cache.py:168-171 | creating a used number by SET NX or INCR, of a present pointer too, needs an earlier loss or overwrite |
| GenerationGuarantees.FloorIsCreationVersion | app/items/cache.py:258-262 | `floor` is, to the end of the run, the version current at the event that created the generation |
| StaleRuns.OldEntriesComeBack | app/items/cache.py:169-171 | a run from the empty database: losing the pointer before the INCR of two publications creates 1 twice, and after the second exit 0 a read is answered from before it |
| GenerationGuarantees.OneClaimPerAbsence | app/items/cache.py:261-262 | between two SET NX that take effect the pointer was lost |
| GenerationGuarantees.ReturnedGenerationIsHeld | app/items/cache.py:247-280 | what `_generation` returns, null included, is what the pointer holds at the returning step, and is canonical; it fails exactly when one of its commands does |
| GenerationGuarantees.InvalidationExactly | app/items/cache.py:168-171 | at every step of every invalidation: a failed check or a pointer without a generation ends the run before INCR, which succeeds exactly on an absent pointer or an integer text below the maximum and leaves its successor |
| GenerationGuarantees.InitialisersAgree | app/items/cache.py:257-280 | from any moment of any run, while there is no loss, overwriting or INCR, all readers begun since that hold a generation hold the pointer's |
| SqlAnswers.KeysNeverAlias | app/items/cache.py:338-350 | key texts coincide exactly for equal generation and resource, and never with the pointer key |
| StoredAnswers.AnswersAreBound | app/items/cache.py:110-166 | in every run, whoever writes whatever to Redis, a hit carries the id, version, or parameters, limit, offset and size its reader asked for, and was held by its own key |
| StoredAnswers.LookupEnds | app/items/cache.py:173-211 | at every command of every lookup: a failure leads to no write; a miss hands on the generation the pointer holds at that step, or none, and the one first seen only after undecodable bytes; it is a hit exactly when the pointer still holds the generation first seen and the payload is bound |
| StoredAnswers.MissIsStoredUnder | app/items/service.py:37-53 | a miss that ended under the pointer's generation h, whichever it began under, leaves the very answer it returns at h's key, amid anything else |
| StoredAnswers.StoredAnswerIsHit | app/items/cache.py:213-245 | a response that a set accepts and writes is returned unchanged by every later read of the resource, amid anything that leaves the key's content and the pointer's generation alone |
| PublishedAnswers.ItemAnswers | app/items/service.py:43-53 | every item read, hit or not, answers with all fields of the row its version holds, as the last publication naming the id gave them; ITEM_NOT_FOUND means no publication had named it |
| PublishedAnswers.MetaAnswers | app/items/service.py:106-127 | every metadata read answers with the texts and stamp of the last publication at its version and the number of items published by then |
| SqlAnswers.AnyLayout | app/items/repository.py:126-164 | list and count do not depend on how the rows are laid out |
| SqlAnswers.ListAnswers | app/items/service.py:55-89 | every list read, hit or not, is the page of the rows of one version and the count of a version not earlier |
| SqlAnswers.ListAnswersMean | app/items/service.py:55-89 | its items match the filters and stand in the requested order, and its total is the number of matching rows |
| SqlAnswers.QuiescentListHits | app/items/service.py:55-89 | a quiescent list hit is the requested page and the matching count of the current table |
| ItemCache.RedisItemCache.Generation | app/items/cache.py:247-280 | `_generation` amid interference: its result is where the protocol stands, and the generation it gives is the pointer's as it returns |
| ItemCache.RedisItemCache.Claim | app/items/cache.py:258-274 | the SET NX branch and the second read when the claim is lost |
| ItemCache.RedisItemCache.Get | app/items/cache.py:173-211 | `_get` with the wrappers' binding checks amid interference: a failure exactly when its last command failed, a miss with the generation the pointer holds as it returns, a hit only under that generation |
| ItemCache.RedisItemCache.Set | app/items/cache.py:213-245 | `_set`: amid interference exactly one own event, which puts this payload under this generation and the answer's own key or, when declined, too large or failed, changes nothing; without a generation nothing at all |
| ItemCache.RedisItemCache.Invalidate | app/items/cache.py:168-171 | succeeds exactly when the INCR took effect and was acknowledged |
| ItemService.CallGuarantee | app/items/service.py:37-127 | a finished call's unforged reply is true of versions the database had, and, its hit's own number not reused, of none older than the last INCR before the call |
| ItemService.Service.GetByGameId | app/items/service.py:37-53 | the item read returns such a reply: the committed row's item as last published at a version in range, or ITEM_NOT_FOUND when nothing had named the id |
| ItemService.Service.ListItems | app/items/service.py:55-89 | the list read returns such a reply: the page at one version and the count at the same or a later one, in range |
| ItemService.Service.GetMeta | app/items/service.py:106-127 | the metadata read returns such a reply: the last publication's metadata and the item count at one version in range |
| IngestionService.HeldLockFreezes | app/ingestion/repository.py:44-45 | whatever others do during a transaction, tables and id sequence stay |
| IngestionService.Command.UpsertItems | app/ingestion/repository.py:53-86 | the batch loop amid interference leaves exactly one whole upsert of the committed rows: the snapshot's rows updated now, new ones created now, all others untouched |
| IngestionService.Command.IngestSnapshot | app/ingestion/service.py:31-45 | clock, lock, check, writes, commit: a successful run publishes exactly when its returned stamp is later than the one recorded under the lock; the version it ends with carries the returned timestamp, and its own snapshot when it published |
| IngestionService.Command.RunIngestion | scripts/ingest.py:72-91 | exit code 0 exactly when commit or no-op and invalidation succeeded, and the version ended with lies at or before the latest INCR |
| Catalog.SetSizeDecidesUniqueness | app/ingestion/schemas.py:160-165 | comparing list length with set size accepts exactly the lists with distinct ids |
| Catalog.BatchesCover | app/ingestion/repository.py:57-72 | for every positive size the slices cover each item once, in order |
| Catalog.ExecutedExactly | app/ingestion/repository.py:57-86 | the batches fail exactly for a lost connection or a batch naming an id twice |
| Catalog.BatchingIsInvisible | app/ingestion/repository.py:53-86 | a validated snapshot in any batch size is one whole upsert |
| Catalog.UpsertExactly | app/ingestion/repository.py:73-85 | a row not proposed is untouched as a whole; a proposed one has the given item and update time; an old one keeps id and creation time; a new one is created now with an id from this statement's range of the sequence |
| Catalog.OverlayOrderFree | app/ingestion/repository.py:53-86 | the resulting business content is independent of item order |
| Catalog.RepeatingIsIdempotent | app/ingestion/repository.py:53-86 | publishing the same items again changes no business field, row, id or creation time |
| Catalog.MetadataIsNewest | app/ingestion/repository.py:103-112 | after any writes in any order the guard leaves the metadata row at the first of those with the greatest timestamp |
| LiteralSearch.ThreePasses | app/items/repository.py:208-210 | the three replacements are one escape per character |
| LiteralSearch.LiteralSearchExact | app/items/repository.py:208-210 | the wrapped pattern always parses and matches exactly the names that contain the folded search text |
| LiteralSearch.BackslashMustGoFirst | app/items/repository.py:209 | escaping the backslash last is exact if and only if the search has no `%` and no `_` |
| ItemQuery.SelectsExactly | app/items/repository.py:201-217 | the filters hold exactly for items whose name contains the search literally, letter case aside, and whose quality, type and version equal the given ones, which null never does |
| ItemQuery.ResultExactly | app/items/repository.py:138-146 | the full result holds exactly the table's matching rows, each as often as the table |
| ItemQuery.CountIsCardinality | app/items/repository.py:150-164 | the count is the number of exactly the matching rows |
| ItemQuery.OrderMeaning | app/items/repository.py:138-145 | of any two rows of the result the earlier stands first by name, quality with null largest, or id, as asked and turned round for descending, ties by ascending id in both |
| ItemQuery.PageMeaning | app/items/repository.py:138-146 | a page holds only matching rows, in that order |
| ItemQuery.SortedIsUnique | app/items/repository.py:142 | with the unique tie-break only one such order exists |
| ItemQuery.PhysicalOrderIrrelevant | app/items/repository.py:138-164 | list and count are the same for every physical row order |
| ItemQuery.PagesPartitionResult | app/items/repository.py:138-146 | pages at offsets 0, L, 2L, ... join to the full ordered result, which holds each selected row as often as the table |
| ItemQuery.PageLength | app/items/repository.py:138-164 | on one version a page has max(0, min(limit, count - offset)) rows |
| ListParameters.ParamsRoundTrip | app/items/cache.py:343-348 | a parser recovers every parameter record from its canonical JSON |
| ListParameters.CanonicalJsonInjective | app/items/cache.py:343-348 | two records share their canonical text exactly when they are equal |
| ListParameters.CharRoundTrip | app/items/cache.py:344-348 | every Unicode scalar is recovered from its escape, surrogate pairs included (section 7 of RFC 8259) |
| CacheKeys.SuffixInjective | app/items/cache.py:110-166 | the three suffix families are disjoint and each is injective, negative ids included |
| CacheKeys.KeyInjective | app/items/cache.py:338-340 | `cache:v1:{generation}:{suffix}` is injective in both parts |
| CacheKeys.DataKeyIsNotPointer | app/items/cache.py:24 | no data key is the generation key |
| CacheKeys.KeyExamples | tests/test_cache.py:87-133 | the key texts of the repository's own examples |
| Generation.ParseAcceptsExactly | app/items/cache.py:315-329 | exactly the decimal texts of numbers up to the maximum are accepted, with leading zeros as far as 19 digits go, and each as its number |
| Generation.ParseIsIdempotent | app/items/cache.py:315-329 | an accepted generation is in range and parsing its canonical text gives it again |
| Generation.DrawLeavesRoom | app/items/cache.py:353-354 | every drawn generation parses and can be incremented once |
| Generation.IncrementedExactly | app/items/cache.py:171 | INCR succeeds exactly on the text of a signed 64-bit integer below the maximum |
| Generation.BoundedGenerationRead | app/items/cache.py:249-253 | the 20-byte window gives the verdict of the whole value |
| Generation.BoundedPayloadRead | app/items/cache.py:282-295 | the MAX + 1 window gives the verdict of the whole payload and never a truncated one |
| Generation.WrittenPayloadReadsBack | app/items/cache.py:238-245 | a payload is read back by the get through its window exactly when the set accepts its size |
| Decimal.DecOfValue | app/items/cache.py:328-329 | printing a parsed canonical number gives its text back |
| Decimal.DecIntInjective | app/items/cache.py:111 | decimal text determines the integer, sign included |
| PreparedCacheSize.TextOrderIsNumericOrder | app/core/config.py:67-79 | for digit texts and maxima of any length the text comparison is the numeric one |
| PreparedCacheSize.AcceptedSizes | app/core/config.py:64-80 | the option is accepted exactly once with one to four digits and value at most 1000 |

## Left out

- Freshness of forged payloads: for a key that somebody else gave a well-formed payload only `StoredAnswers.AnswersAreBound` speaks.
- JSON encoding of responses and its size: payloads are typed, and whether one exceeds the size bound is a free choice of each write-back.
- SHA-256: the digest is a parameter, assumed to distinguish the texts compared.
- TTL values and clocks: any data key may vanish at any event; `now()` and the run's clock are arbitrary integers.
- Waiting for the advisory lock: other actors' steps stand for the wait, and a lock still held when the command times out is a failure; that every run ends is not stated.
- Exhaustion of the INTEGER id sequence and of bigint offsets.
- Nondeterministic collations, and lower-casing that changes a text's length: folding is per character.
- Random item reads, per-field snapshot validation, snapshot file reading, and the remaining URL and settings checks.
- Authentication, routing, error bodies, logging, health checks and migrations.
- ItemCache.RedisItemCache.Get: models the three typed getters as one method over a resource value; the factory's ValueError is absent because every draw parses.
- ReadGuarantees.FreshHits: says nothing of a hit whose own number was created twice; `StaleReads.OlderAnswersExactly` does.
- StaleReads.OlderAnswersExactly: is about unforged answers on a way on that creates no number again; when a number is created again is `GenerationGuarantees.ReusedExactly`.
