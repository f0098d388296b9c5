# Verified models of the metadata store's protocols

The store keeps several fast structures that must agree with slow, simple ones, and runs several small
protocols as SQL transactions and Go loops. This project models them in Dafny and proves what they
keep. `dafny verify dfyconfig.toml` checks everything.

Tables are maps or sequences, a store call is one transaction, and a batched statement is the sequence
of its rows. Objects whose methods change their fields are classes; each method is proved against
functions on values, and the results about whole runs are lemmas over those functions. Clock readings,
the rows other transactions hold locked, the order a Go map is ranged in, and the victim of an eviction
are inputs or arbitrary choices, so the results hold for all of them.

| part | modules | result |
|---|---|---|
| dataset aggregate | `DatasetReferences`, `DatasetDeltas`, `DatasetTables`, `DatasetStatements`, `DatasetApplyProof`, `DatasetRecompute`, `DatasetRebuild`, `RunReferences`, `IngestBatch`, `IngestOutcome`, `DatasetStore`, `DatasetWorkload` | incremental maintenance over any run of ingests, prunes and sweeps equals recomputation |
| lock order | `LockOrder`, `TransactionLocks`, `LatePrunes` | no interleaving of ingests and prunes deadlocks, and exactly when one does with a prune that runs expire under; what is not locked is not touched |
| canonical fingerprint | `ProtoMessage`, `CanonicalEncoding`, `CanonicalBytes`, `CanonicalEncoder`, `Fingerprint` | the encoding is self-delimiting and injective and does not depend on iteration order |
| sanitizer | `Sanitizer`, `SanitizerRun` | deterministic under key collisions, idempotent, free of U+0000 |
| rate limiter | `RateLimiter`, `RateLimiterProof` | eviction never costs requests in total, but can deny one exactly when tokens come back; window bound; pruning is unnoticed exactly when buckets are full |
| temporal registry | `MetaHistory`, `MetaMutations`, `MetaRegistry` | a read as of any time shows that time's snapshot up to statistics |
| GUIDs | `MetaGuid` | build and split are inverse; the LIKE condition is the descendant relation |
| outbox | `DeliveryOutbox`, `DeliveryLeases` | row invariant over every run; within leases one live holder per row and SENT is final |
| lineage commits | `LineageStore`, `LineageRuns` | no stale or deleted definition is ever committed, at lock granularity |
| environments | `EnvironmentSlug`, `EnvironmentSetting` | ids and folded titles unique over any run, only deleted environments disappear; the id search terminates |
| IAM patch | `IamPolicy` | exactly the requested roles; idempotent; the allUsers rule |
| frequency gate | `FrequencyGate` | greedy, spaced and optimal |
| migrations | `Migrator`, `MigratorRuns` | ledger and schema agree through crashes |
| OAuth grants | `OAuthGrants` | single redemption, final revocation |

Every statement's contract also says outright which rows it takes and what it writes to them, apart from
the functions the results about runs are stated with.

`Ordering` holds optional values, the comparators and the sort the others use.

## Where the code and its comments differ

The code is modelled as it is. These claims hold only under the stated condition, which is proved to be
exact where it is an if-and-only-if.

- `backend/server/rate_limiter.go:38-53` says eviction can never deny. Request by request that holds
  exactly when the rate or the burst is zero (`RateLimiterProof.EvictionNeverDeniesExactly`,
  `RateLimiterProof.EvictionCostsOneRequest`); in total it is true for every trace
  (`RateLimiterProof.EvictionNeverCosts`), and a denial only repays an earlier extra admission
  (`RateLimiterProof.DenialRepays`).
- `backend/store/maintenance.go:65-71` says the task locks keep a prune and an ingest from deadlocking,
  and `maintenance.go:84-87` that the staged datasets are those the deleted references belonged to. The
  prune's statements each see what is committed when they start, so the delete can take late runs: expired
  runs of tasks it has not locked. A prune then never deadlocks exactly when there is no late run, or
  one only and its task follows every locked one (`LatePrunes.LatePruneNeverDeadlocksExactly`,
  `LatePrunes.LateRunsCanDeadlock`), and the rebuild is exact if and only if the references of
  all deleted runs were staged (`DatasetRebuild.RebuildRestoresExactly`, `DatasetStore.Tables.DeleteStaged`).
- `backend/store/openlineage_dataset_aggregate.go:163-168` files every direction but output under input;
  the rebuild in `backend/store/maintenance.go:245-261` tests both. Maintained and rebuilt tables agree
  exactly when the stored directions are known (`DatasetRecompute.MembersAgreeExactly`,
  `DatasetRebuild.RebuildRestores`).
- `backend/store/meta_resource.go:498-519` deletes rows by id and closes history by key. Both stay in
  step exactly when they name the same rows (`MetaMutations.DeleteKeepsAgreement`).
- `backend/store/notification_delivery.go:198-206` has no owner guard, so a sent row stays SENT exactly
  when no finish names it with another outcome (`DeliveryLeases.SentStaysExactly`), which holders within
  their lease never do (`DeliveryLeases.SentIsFinal`) and a late one can (`DeliveryLeases.LateFinishReopens`).
- `backend/store/column_lineage.go:552-556`: the deliberate skip is safe, whatever the analyzer would
  have computed, exactly when no edges are stored or the record already names the skipped definition
  (`LineageRuns.SkipIsSafeExactly`, `LineageRuns.SkipKeepsOldEdges`).
- `backend/store/policy.go:226-254` removes one occurrence of a member per binding, so it revokes exactly
  when none is listed twice where it revokes (`IamPolicy.PatchGrantsExactly`).
- `backend/common/guid.go:36-52`: the empty segment list builds the GUID of one empty segment
  (`MetaGuid.SplitUndoesBuild`).
- `backend/store/environment_mutation.go:45-72` writes the title before it checks the color, so a refused
  update changes the setting it was given exactly when it refuses the color after a new title that is not
  taken (`EnvironmentSetting.Setting.Update`, `EnvironmentSetting.RefusedUpdateRetitles`).

## Model

| member | source | states |
|---|---|---|
| `DatasetWorkload.Perform` | backend/store/openlineage_dataset_aggregate.go:82-601 | From any valid tables, any sequence of ingests, prunes and sweeps stores exactly the fold of the operations, and the maintained aggregate and member tables are what GROUP BY over those references gives, provided producers only deliver input and output references |
| `DatasetRecompute.MaintainedEqualsRecomputed` | backend/store/maintenance.go:221-276 | Tables that satisfy the aggregate invariant are the rebuild's tables: counts, distinct input and output jobs, column-lineage count, newest event time, every member count, and no row for an unreferenced dataset |
| `DatasetRecompute.MembersAgreeExactly` | backend/store/openlineage_dataset_aggregate.go:163-168 | The fold files an unknown direction under the input tasks and the rebuild drops it: the two member tables agree if and only if every stored direction is input or output |
| `DatasetStore.Tables.Ingest` | backend/store/openlineage_run.go:131-229 | One batch transaction keeps the aggregate invariant for every delivery list; each run ends with its last delivery that completes it or that finds it unfinished, and otherwise with what it had, and exactly the other deliveries are refused; it locks every delivery's task, every written run and exactly the datasets whose references changed, in the global order, and leaves every unlocked dataset as it was |
| `IngestOutcome.FoldOutcome` | backend/store/openlineage_run.go:153-199 | The loop's fold gives each run its last stored delivery with exactly its references, or leaves run and references alone; a delivery is refused if and only if it does not complete a run that was complete before it |
| `IngestOutcome.FinishedRunIsKept` | backend/store/openlineage_run.go:245-260 | A run stored complete keeps its state and references and refuses every delivery of a batch that does not complete it again |
| `IngestOutcome.UnfinishedRunIsTaken` | backend/store/openlineage_run.go:153-199 | A run not stored complete takes the batch's last delivery of it, if none before completes it |
| `DatasetStore.Tables.DeliverAll` | backend/store/openlineage_run.go:153-199 | The loop over the deliveries stores the batch's runs and references, refuses and locks exactly what the batch does, and collects the replacements that account for every change of the reference table |
| `DatasetStore.Tables.Apply` | backend/store/openlineage_dataset_aggregate.go:286-301 | Given references already rewritten by the replacements, the aggregate that described the old references describes the new ones afterwards, for any chunk boundaries; exactly the datasets whose references changed are locked, ascending, and no other is touched |
| `DatasetStore.Tables.ApplyDeltas` | backend/store/openlineage_dataset_aggregate.go:294-301 | The three phases (lock and read, move members, write counters) bring the aggregate to the new references and lock exactly the listed datasets, ascending |
| `DatasetStore.Tables.LockDatasets` | backend/store/openlineage_dataset_aggregate.go:307-330 | Chunked upserts lock every listed dataset in ascending order across chunks, create the missing rows empty, and return each row's state |
| `DatasetStore.Tables.ApplyMemberDeltas` | backend/store/openlineage_dataset_aggregate.go:366-399 | For any chunking, each member's count moves by its net delta, no count is zero or negative afterwards, and the inferred job deltas equal the change in the number of task member rows |
| `DatasetStore.Tables.AddMembers` | backend/store/openlineage_dataset_aggregate.go:415-441 | A task row is counted as a new job exactly when the returned count equals the delta; the counted jobs equal the rows created |
| `DatasetStore.Tables.RemoveMembers` | backend/store/openlineage_dataset_aggregate.go:447-496 | A task row is counted as a lost job exactly when its count is exhausted; exhausted rows are deleted and the counted jobs equal the rows deleted |
| `DatasetStore.Tables.UpdateAggregates` | backend/store/openlineage_dataset_aggregate.go:520-601 | Fails exactly when a listed dataset was not locked; otherwise rewrites every listed row and deletes emptied rows with their members, whatever the chunks |
| `DatasetStore.CollectChunk` | backend/store/openlineage_dataset_aggregate.go:563-597 | One chunk's delete and update lists have, when flushed, the effect of rewriting its rows one by one; the chunk is refused exactly when a dataset was not locked |
| `DatasetTables.MemberDeltaList` | backend/store/openlineage_dataset_aggregate.go:401-411 | The flattened member deltas are ascending by dataset, kind and value, list each member at most once, no zero delta, and sum to each member's net change |
| `DatasetTables.SortedMemberKeys` | backend/store/openlineage_dataset_aggregate.go:603-615 | The member keys of a delta, each once, strictly ascending by stored kind and value |
| `DatasetTables.MembersByText` | backend/store/openlineage_dataset_aggregate.go:603-615 | Members are ordered as integrations, sources, input tasks, output tasks, and by value within a kind |
| `DatasetTables.Partition` | backend/store/openlineage_dataset_aggregate.go:374-385 | A chunk is split into its positive and its negative deltas, nothing lost |
| `DatasetTables.CreatedRow` | backend/store/openlineage_dataset_aggregate.go:415-442 | Raising a count that was absent by its delta creates exactly one task row of that kind, and any other raise creates none |
| `DatasetTables.DeletedRows` | backend/store/openlineage_dataset_aggregate.go:465-496 | Deleting the exhausted rows lowers the number of task rows by exactly the exhausted ones of that kind |
| `DatasetDeltas.ComputeDeltas` | backend/store/openlineage_dataset_aggregate.go:82-150 | One delta per dataset whose reference multiset changed and none otherwise, ascending by (namespace, name), each carrying the exact net change of every counter, whether a reference went away, and the newest added event time |
| `DatasetDeltas.KeysByText` | backend/store/openlineage_dataset_aggregate.go:140-149 | Datasets are ordered by namespace and then name, each by its first differing character |
| `DatasetDeltas.DeltasDependOnNetDifference` | backend/store/openlineage_dataset_aggregate.go:77-104 | Replacement lists with the same net old/new difference give the same deltas, so intermediate replacements of a run cancel |
| `DatasetDeltas.WritesNothingExactly` | backend/store/openlineage_dataset_aggregate.go:138-144 | A delta is dropped as empty exactly when no reference of the dataset has a non-zero net count |
| `DatasetDeltas.FoldDataset` | backend/store/openlineage_dataset_aggregate.go:103-137 | The fold over one dataset's counted references yields their signed totals, in any visiting order |
| `DatasetApplyProof.AppliedIsConsistent` | backend/store/openlineage_dataset_aggregate.go:520-601 | Rewriting the listed rows from their locked state, the deltas and the inferred job deltas restores the invariant for every dataset, listed or not |
| `DatasetApplyProof.AppliedRow` | backend/store/openlineage_dataset_aggregate.go:563-601 | A listed row gets the exact counters of the new references; an emptied dataset has no references left |
| `DatasetApplyProof.LastSeenMovesUp` | backend/store/openlineage_dataset_aggregate.go:536-548 | Without a removed reference the newest event time is the greater of the stored and the newest added one |
| `DatasetRebuild.RebuildRestores` | backend/store/maintenance.go:190-280 | Rebuilding only the datasets the deleted references named restores the whole aggregate, if and only if those datasets hold no reference in a direction the rebuild does not count |
| `DatasetRebuild.RebuildRestoresExactly` | backend/store/maintenance.go:87-116 | Whatever is committed between the staging and the delete, the rebuild restores the aggregate if and only if every deleted reference names a staged dataset and the staged directions are known |
| `DatasetRebuild.StatementsRebuild` | backend/store/maintenance.go:190-280 | Insert, delete-empty, upsert and member rewrite together leave the grouped rows of the staged datasets and touch no other row |
| `DatasetRebuild.PrunedRows` | backend/store/maintenance.go:97-116 | Deleting runs takes exactly the references of those runs, all of which name staged datasets |
| `DatasetRebuild.StagedHaveRows` | backend/store/maintenance.go:193-198 | Every dataset a stored reference names already has its aggregate row, so the preparatory insert of the prune inserts and locks nothing |
| `DatasetStore.Tables.Prune` | backend/store/maintenance.go:51-136 | Keeps exactly the runs without an event time or not before the cutoff, unchanged and with exactly their references; leaves the aggregate invariant true exactly when the staged directions are known, inserts no row while preparing, locks exactly the expired runs' tasks, those runs and the datasets they named, in the global order, and leaves every unlocked dataset as it was |
| `DatasetWorkload.OutlivesPrunes` | backend/store/maintenance.go:97-109 | A run that no delivery gives an event time before any prune's cutoff outlives any sequence of ingests, prunes and sweeps |
| `DatasetStore.Tables.DeleteStaged` | backend/store/maintenance.go:97-131 | The statements behind the staging, with any dataset staged and any run committed in between: the invariant survives if and only if every deleted reference names a staged dataset and the staged directions are known |
| `DatasetStore.Tables.Reconcile` | backend/store/maintenance.go:190-280 | Regenerates exactly the staged datasets from the references still stored, and locks exactly those, ascending |
| `DatasetStore.Tables.Sweep` | backend/store/maintenance.go:151-175 | Deletes exactly the candidate rows that no stored reference names and touches no other dataset; on a consistent aggregate that is none |
| `RunReferences.ReplaceRowsNet` | backend/store/openlineage_dataset.go:209-256 | Replacing a run's references moves the reference multiset by exactly the run's old and new references |
| `RunReferences.ReplaceStep` | backend/store/openlineage_run.go:170-185 | The replacements collected so far keep accounting for the table after one more delivery |
| `RunReferences.TaskLockOrder` | backend/store/openlineage_run.go:231-243 | The batch is visited by ascending task GUID, deliveries of one task in their given order |
| `IngestBatch.BatchStep` | backend/store/openlineage_run.go:153-199 | One delivery keeps all of the batch's accounting: runs, references, refusals, replacements and the exact list of locks |
| `IngestBatch.BatchLocksInOrder` | backend/store/openlineage_run.go:231-243 | The tasks of a batch are locked ascending and each run behind its task |
| `IngestBatch.BatchLocksCover` | backend/store/openlineage_run.go:153-199 | A batch locks the task of every delivery and the row of every run it does not refuse |
| `IngestBatch.ChangedRunsAreLocked` | backend/store/openlineage_run.go:153-199 | A run whose stored row a batch creates or changes was locked under the task it is stored with, and no run disappears |
| `IngestBatch.RunThenDatasetLocks` | backend/store/maintenance.go:65-131 | Task and run locks followed by ascending dataset locks follow the global order |
| `IngestBatch.TaskLocks` | backend/store/maintenance.go:75-83 | Exactly the pruned tasks are locked, strictly ascending by GUID |
| `TransactionLocks.IngestsAndPrunesNeverDeadlock` | backend/store/maintenance.go:65-83 | In every interleaving, at lock granularity, of any number of transactions that each take the locks of some ingest or some prune, every row has at most one holder and no reachable state is a deadlock |
| `TransactionLocks.IngestLocksInOrder` | backend/store/openlineage_dataset_aggregate.go:278-285 | The locks of any ingest follow the global order |
| `TransactionLocks.PruneLocksInOrder` | backend/store/maintenance.go:65-83 | The locks of any prune follow the global order |
| `LatePrunes.LatePruneNeverDeadlocksExactly` | backend/store/maintenance.go:65-100 | Whatever expired runs a prune finds at its lock statement and at its delete, in whatever order it deletes, and whatever ingests and undisturbed prunes run beside it, at lock granularity: no reachable state is a deadlock if and only if no deleted run is of a task not locked, or a single one is and its task follows every locked one |
| `LatePrunes.HarmfulDeadlocks` | backend/store/maintenance.go:65-100 | Otherwise there is a delete order and one ingest with which the prune deadlocks; the interleaving is constructed |
| `LatePrunes.OneLateNeverDeadlocks` | backend/store/maintenance.go:65-100 | One run locked without its task, behind every locked task, leaves some unfinished transaction able to go on |
| `LatePrunes.TwoRunsAreAnIngest` | backend/store/openlineage_run.go:153-199 | Redelivering any two runs in task order takes their tasks and rows alternately, whatever is stored |
| `LatePrunes.LateRunsCanDeadlock` | backend/store/maintenance.go:97-100 | Concrete tables before and during a prune, a delete order and an ingest of two of the runs that deadlock |
| `LockOrder.NeverDeadlocked` | backend/store/openlineage_dataset_aggregate.go:278-285 | Whenever some transaction is unfinished, one that follows the lock order can take its next lock |
| `LockOrder.InterleavingNeverStuck` | backend/store/maintenance.go:65-83 | No interleaving of transactions that follow the lock order, at lock granularity, reaches a deadlock |
| `LockOrder.StepKeepsExclusive` | backend/store/maintenance.go:177-189 | A granted lock keeps every row held by at most one transaction |
| `CanonicalEncoding.MessageRoundTrip` | backend/store/meta_hash.go:207-247 | A decoder recovers any message of a descriptor, over all scalar kinds, lists, maps and recursive messages, and leaves the bytes behind the encoding untouched |
| `CanonicalEncoding.EncodingIsInjective` | backend/store/meta_hash.go:207-247 | Two encodings followed by anything are equal exactly when the messages and the rests are equal: injective and self-delimiting |
| `CanonicalEncoding.ValueRoundTrip` | backend/store/meta_hash.go:283-319 | Every scalar kind and nested message is read back, with the uint64 conversion of negative numbers |
| `CanonicalEncoding.FieldRoundTrip` | backend/store/meta_hash.go:250-264 | Singular, repeated and map fields are read back |
| `CanonicalEncoding.EntriesRoundTrip` | backend/store/meta_hash.go:266-281 | Length-prefixed map entries in any order are read back as the map they came from |
| `CanonicalEncoding.EntryKeyIsReadBack` | backend/store/meta_hash.go:266-272 | Entries of different keys have different bytes, so sorting them is strict |
| `CanonicalEncoding.UvarintRoundTrip` | backend/store/meta_hash.go:331-335 | A varint followed by anything is read back with the rest untouched |
| `CanonicalEncoder.EncodeCanonicalMessage` | backend/store/meta_hash.go:232-248 | Whatever order the fields are ranged in, the buffer is extended by the message's one encoding, which visits them by ascending number (CanonicalBytes.FieldsAscend) |
| `CanonicalBytes.FieldsAscend` | backend/store/meta_hash.go:238-247 | For the ascending list of a message's field numbers, the encoding is their count followed by the fields in that order |
| `CanonicalBytes.EntriesAscend` | backend/store/meta_hash.go:266-281 | For the list of a map's encoded entries in ascending byte order, the encoding is their count followed by them in that order |
| `Ordering.LexLessExactly` | backend/store/meta_hash.go:274-274 | The byte order is decided by the first difference, a prefix coming first |
| `CanonicalBytes.UvarintIsMinimal` | backend/store/meta_hash.go:331-335 | A varint has no superfluous byte |
| `CanonicalBytes.TwoFields` | backend/store/meta_hash.go:232-264 | The six bytes of a message with a one-byte text in field 1 and a true flag in field 2 |
| `CanonicalEncoder.EncodeCanonicalField` | backend/store/meta_hash.go:250-264 | The buffer is extended by the field's encoding |
| `CanonicalEncoder.EncodeCanonicalMap` | backend/store/meta_hash.go:266-281 | Whatever order the entries are ranged in, the buffer is extended by the map's one encoding |
| `CanonicalEncoder.EncodeCanonicalValue` | backend/store/meta_hash.go:283-319 | The buffer is extended by the value's encoding |
| `CanonicalEncoder.SortEntries` | backend/store/meta_hash.go:274-276 | Entries collected in any order sort to the same list |
| `CanonicalEncoder.AppendUvarint` | backend/store/meta_hash.go:331-335 | The loop of the varint writer appends the varint |
| `Fingerprint.FingerprintIdentifiesContent` | backend/store/meta_hash.go:171-190 | The hashed bytes of two messages are equal exactly when their normalized messages are; together with equal statistics exactly when the messages are equal |
| `Fingerprint.DroppedByNumber` | backend/store/meta_hash.go:193-213 | The dropped fields by number: 6 to 9 of a table's metadata, 9 of a sequence's, none of anything else |
| `Fingerprint.DomainFirst` | backend/store/meta_hash.go:20-23 | The hashed bytes start with the 32 bytes of the domain |
| `Fingerprint.StatisticsAreAllThatIsDropped` | backend/store/meta_hash.go:193-216 | Normalized message and extracted statistics together determine stored metadata |
| `Fingerprint.NormalizeIsIdempotent` | backend/store/meta_resource_statistics.go:28-42 | A normalized message carries zero statistics and normalizes to itself |
| `Fingerprint.CalcHashedBytes` | backend/store/meta_hash.go:183-188 | The bytes fed to the hash are the domain prefix and the encoding of the normalized message |
| `Fingerprint.StoredFingerprintIsStable` | backend/store/meta_hash.go:38-50 | What is stored is fingerprinted as stored: sanitizing again changes neither it nor its type |
| `Sanitizer.SanitizedHasNoNul` | backend/store/meta_hash.go:78-110 | No string, list element, map key or map value of a sanitized message, at any depth, holds U+0000 |
| `Sanitizer.SanitizeIsIdempotent` | backend/store/meta_hash.go:66-73 | Sanitizing twice is sanitizing once, and it changes a message exactly when it holds a U+0000 |
| `Sanitizer.CleanTextAround` | backend/store/meta_hash.go:28-28 | Each U+0000 becomes one replacement and the text around it is kept |
| `Sanitizer.WinnerIsUnique` | backend/store/meta_hash.go:112-120 | Among entries that come to the same key one wins: the key already clean, else the smallest original key |
| `Sanitizer.WinnerIsFirst` | backend/store/meta_hash.go:112-120 | Among keys that become the same clean one, the first in byte order keeps its entry |
| `Sanitizer.SanitizeKeepsType` | backend/store/meta_hash.go:75-110 | Sanitizing keeps every field's type |
| `SanitizerRun.SanitizeProtoStrings` | backend/store/meta_hash.go:78-110 | Whatever order the fields are ranged in, the result is the sanitized message |
| `SanitizerRun.SanitizeProtoMap` | backend/store/meta_hash.go:121-169 | Whatever order the map is ranged in, collecting, sorting and applying the replacements gives the map in which each clean key holds its winner's sanitized value |
| `SanitizerRun.ApplyReplacements` | backend/store/meta_hash.go:157-168 | Applying the sorted replacements one by one, clearing old keys and skipping present ones, leaves each key's winner |
| `SanitizerRun.CollectReplacements` | backend/store/meta_hash.go:136-153 | One replacement per entry whose key or value changes, in any visiting order |
| `RateLimiter.Store.Allow` | backend/server/rate_limiter.go:91-111 | One request: prune when due, evict some tracked identifier exactly at the ceiling, answer by the identifier's bucket, and leave the specified state |
| `RateLimiter.Store.Prune` | backend/server/rate_limiter.go:114-120 | Drops exactly the buckets idle for at least the expiry |
| `RateLimiter.Store.Evict` | backend/server/rate_limiter.go:129-134 | Drops exactly one tracked bucket, any one, if there is one |
| `RateLimiterProof.EvictionNeverCosts` | backend/server/rate_limiter.go:38-53 | Over every trace with a non-decreasing clock, whatever is evicted, an identifier has had at least as many requests admitted as by a limiter that keeps every bucket |
| `RateLimiterProof.DenialRepays` | backend/server/rate_limiter.go:121-128 | A request denied that the unbounded limiter admits comes only after a strictly larger number of admitted requests |
| `RateLimiterProof.EvictionCostsOneRequest` | backend/server/rate_limiter.go:38-45 | Under every ceiling, with any burst and any positive rate and expiry, there is a legal trace in which an eviction makes a later request be denied that the unbounded limiter admits |
| `RateLimiterProof.EvictionNeverDeniesExactly` | backend/server/rate_limiter.go:38-45 | The claim that eviction never denies holds, over all legal traces on an advancing clock, if and only if the rate or the burst is zero |
| `RateLimiterProof.PruningUnnoticedExactly` | backend/server/rate_limiter.go:95-119 | For all traces without an eviction of the identifier, decisions equal those of the unbounded limiter if and only if burst <= rate * expiresIn |
| `RateLimiterProof.UnevictedIsUnnoticed` | backend/server/rate_limiter.go:95-119 | With burst <= rate * expiresIn an identifier never evicted has the same tokens and admissions after every prefix of a trace |
| `RateLimiterProof.WindowBound` | backend/server/rate_limiter.go:95-119 | In any window of length W an identifier not evicted in it is admitted at most burst + rate * W times, pruned and recreated or not |
| `RateLimiterProof.CeilingHoldsAlong` | backend/server/rate_limiter.go:103-107 | The number of buckets never exceeds a positive ceiling, over every run |
| `RateLimiterProof.PotentialStep` | backend/server/rate_limiter.go:104-110 | The potential: admissions, alone and together with the tokens left, stay ahead through refill, reset and admission |
| `MetaRegistry.Perform` | backend/store/meta_resource.go:387-534 | A run of orderly calls takes the registry through exactly those calls, each effective batch logging its snapshot and a refresh only rewriting matching rows; afterwards every read as of any time shows exactly the keys of the snapshot of the last batch at or before it, with equal metadata up to statistics |
| `MetaRegistry.Registry.BatchCreateAt` | backend/store/meta_resource.go:387-478 | Fails, unchanged, exactly when a key is named twice; otherwise upserts the rows, keeps ids, returns each row's id by key, and keeps intervals, open rows and time travel right |
| `MetaRegistry.Registry.BatchDeleteAt` | backend/store/meta_resource.go:498-534 | Deletes rows by id and closes history by key; the registry's invariant survives if and only if the ids and the keys name the same current rows |
| `MetaRegistry.Registry.UpdateStatistics` | backend/store/meta_resource_statistics.go:104-161 | Rewrites exactly the rows whose fingerprint still matches, reports how many, and leaves history, fingerprints and time travel alone |
| `MetaRegistry.Registry.ReadAsOf` | backend/store/meta_resource_query.go:87-145 | An as-of read returns one row per key of the snapshot at that time, with its fingerprint, and nothing else |
| `MetaRegistry.Registry.UpsertHistory` | backend/store/meta_resource_history.go:148-164 | The looked-up open rows are closed or kept and new ones opened as the mutations say |
| `MetaRegistry.Registry.ListOpen` | backend/store/meta_resource_history.go:36-78 | Finds the open history row of each requested key that has one, and no other |
| `MetaMutations.BuildHistoryMutations` | backend/store/meta_resource_history.go:14-30 | A key without an open row is opened, one with another fingerprint is closed and opened, one with the same is left |
| `MetaMutations.CreateOpenAgrees` | backend/store/meta_resource_history.go:148-164 | After a batch each current row has an open history row with its fingerprint, and no other row is open |
| `MetaMutations.CreateEvolves` | backend/store/meta_resource_history.go:83-145 | A batch only closes open rows at its time and adds rows open since then, never beside another open row of the key |
| `MetaMutations.DeleteKeepsAgreement` | backend/store/meta_resource.go:503-519 | Open rows and current rows stay in step if and only if the ids and keys of the delete name the same rows |
| `MetaMutations.UpsertKeepsUniqueIds` | backend/store/meta_resource.go:419-428 | Row ids stay unique through an upsert |
| `MetaHistory.FaithfulStep` | backend/store/meta_resource_query.go:90-91 | If time travel showed every earlier snapshot before a batch it does after it, the batch's own included, for batches observed in order |
| `MetaHistory.PastKept` | backend/store/meta_resource_query.go:90-91 | A batch changes nothing a read as of an earlier time shows |
| `MetaHistory.IntervalsKept` | backend/store/meta_resource_history.go:83-95 | Per key the validity intervals stay ordered and disjoint, only the last open |
| `MetaHistory.VisibleOnce` | backend/store/meta_resource_query.go:90-91 | Two history rows visible at the same time have different keys |
| `MetaGuid.SplitUndoesBuild` | backend/common/guid.go:36-52 | Splitting a built GUID gives its segments back, for every name, if and only if the list is not empty |
| `MetaGuid.BuildIsInjective` | backend/common/guid.go:12-16 | Different non-empty segment lists build different GUIDs |
| `MetaGuid.UnescapeUndoesEscape` | backend/common/guid.go:18-32 | Unescaping undoes escaping, an escaped segment holds no separator, and plain names are left alone |
| `MetaGuid.SubtreeIsDescendants` | backend/store/meta_resource.go:100-112 | The exact-or-LIKE condition with the escaped pattern accepts a built GUID if and only if the prefix's segments begin its segments, for names holding ; % _ and backslash |
| `MetaGuid.LikeIsPrefix` | backend/store/meta_resource.go:100-109 | The escaped pattern followed by % matches exactly the strings that begin with the text |
| `MetaGuid.LikeAnyText` | backend/store/meta_resource.go:100-109 | A percent sign matches any text |
| `MetaGuid.LikeByCases` | backend/store/meta_resource.go:100-109 | An underscore matches one character, a backslash the character behind it, any other itself |
| `MetaGuid.PrefixIsParent` | backend/common/guid.go:70-79 | GUIDPrefix of a built GUID is the GUID of its segments but the last |
| `MetaGuid.InstanceIsFirst` | backend/common/guid.go:54-60 | The instance is the first segment, known exactly below the instance itself |
| `MetaGuid.BuildMetaGUID` | backend/common/guid.go:36-42 | The loop joins the escaped segments |
| `MetaGuid.SplitMetaGUID` | backend/common/guid.go:46-52 | The loop unescapes every split segment in place |
| `DeliveryLeases.RunKeepsRows` | backend/store/notification_delivery.go:160-455 | In every run, with dispatchers acting however late: one row per (event, channel), SENDING rows have an attempt, sent_at is set exactly on SENT rows, and terminal rows are not quiet-deferred |
| `DeliveryLeases.RunKeepsInvariant` | backend/store/notification_delivery.go:160-455 | As long as holders act within their lease, no row has two live lease holders in any run |
| `DeliveryLeases.SentIsFinal` | backend/store/notification_delivery.go:206-223 | In every run in which holders act within their lease, a SENT row stays as it is until it is pruned and its id is not used again |
| `DeliveryLeases.StepKeepsRows` | backend/store/notification_delivery.go:198-233 | Every statement keeps the row invariant, a finish, deferral or release after the lease included |
| `DeliveryLeases.StepKeepsLeases` | backend/store/notification_delivery.go:387-404 | A claim never takes a row whose lease is live |
| `DeliveryLeases.StepKeepsSent` | backend/store/notification_delivery.go:363-382 | Within leases no step changes a sent row |
| `DeliveryLeases.StepKeepsRowsThere` | backend/store/notification_delivery.go:363-382 | Only a prune removes rows, and only terminal ones; an id is never used again |
| `DeliveryLeases.YoungRowStays` | backend/store/notification_delivery.go:363-382 | Over every run, a row not created before any prune's cutoff is never removed |
| `DeliveryLeases.Serve` | backend/store/notification_delivery.go:62-455 | Every call of the outbox is a step of the model, at any time and by anyone, and leaves exactly the rows that step does |
| `DeliveryLeases.AttemptIsGivenBack` | backend/store/notification_delivery.go:224-256 | A claim followed by a deferral or a release leaves the attempt count as it was; the clamp never fires |
| `DeliveryLeases.EnqueueIsIdempotent` | backend/store/notification_delivery.go:59-62 | Repeating an enqueue changes nothing |
| `DeliveryLeases.EnqueuedIsQueued` | backend/store/notification_delivery.go:92-107 | Every item with a payload and an existing channel has its row after the enqueue |
| `DeliveryLeases.SentStaysExactly` | backend/store/notification_delivery.go:198-206 | Over every run, late dispatchers included, a sent row stays SENT as long as it is stored if and only if no finish names it with another outcome |
| `DeliveryLeases.LateFinishReopens` | backend/store/notification_delivery.go:198-206 | A run from the start state, within leases up to its last step, in which a finish after the lease reopens a delivery that was sent |
| `DeliveryOutbox.PickDue` | backend/store/notification_delivery.go:388-396 | The claim picks the first due rows by (next attempt, id) that are not locked, as many as the limit allows |
| `DeliveryOutbox.Outbox.Claim` | backend/store/notification_delivery.go:160-195 | Claims exactly the unlocked due rows that are neither SENT nor DEAD and have fewer than the limit such rows before them, leases them and counts an attempt on each, and touches no other; a limit of zero or less claims nothing |
| `DeliveryOutbox.PickIsFirst` | backend/store/notification_delivery.go:388-396 | Picking first due rows one by one is picking those with fewer than the limit before them |
| `DeliveryOutbox.Outbox.Create` | backend/store/notification_delivery.go:62-112 | Inserts a row per new (event, channel) of an existing channel, skipping items without payload |
| `DeliveryOutbox.EnqueuedRowsAreNew` | backend/store/notification_delivery.go:62-112 | Every row an enqueue adds comes from an item with a payload and a channel that exists, and is PENDING, untried and due when the item says |
| `DeliveryOutbox.Outbox.Finish` | backend/store/notification_delivery.go:198-223 | Writes state, error and next attempt to the named row whatever its state, with the time of the call exactly for SENT, and keeps its attempts and every other row |
| `DeliveryOutbox.Outbox.Defer` | backend/store/notification_delivery.go:227-253 | Puts only a SENDING row back, with its attempt, marked quiet-deferred |
| `DeliveryOutbox.Outbox.Release` | backend/store/notification_delivery.go:435-455 | Puts only a SENDING row back, with its attempt, due now |
| `DeliveryOutbox.Outbox.ReleaseQuietDeferred` | backend/store/notification_delivery.go:258-273 | Afterwards no row is held by quiet hours, no due row has become undue, and the rows stay well formed |
| `DeliveryOutbox.Outbox.Requeue` | backend/store/notification_delivery.go:338-361 | Makes exactly a DEAD row pending, due at once, with no attempts charged and no error, and returns it |
| `DeliveryOutbox.Outbox.Prune` | backend/store/notification_delivery.go:366-382 | A row stays if and only if it is neither SENT nor DEAD or was not created before the cutoff; every deleted row is counted, kept rows are unchanged, and the rows stay well formed |
| `LineageRuns.AlwaysTraceable` | backend/store/column_lineage.go:521-550 | At every moment of every interleaving of syncs, statement deletions, analyses and safe skips at lock granularity, each stored edge comes from the definition its producer's version row records, and no version row outlives its object |
| `LineageRuns.CommitIsCurrent` | backend/store/column_lineage.go:716-740 | What an analysis commits was computed from the definition that is current as it commits, and only that view's edges change |
| `LineageRuns.CurrentEdges` | backend/store/column_lineage.go:515-520 | A view whose record names its current definition shows only edges of that definition |
| `LineageRuns.StepKeepsInvariant` | backend/store/column_lineage.go:716-740 | Every step keeps traceability, lock exclusion and what open transactions have established |
| `LineageRuns.SyncKeepsTraceable` | backend/store/column_lineage.go:695-717 | A deletion that cleans lineage in its transaction leaves no edge or record of a deleted view or statement |
| `LineageRuns.SweepTakesExactly` | backend/store/column_lineage.go:695-717 | A sync and its commit with nothing in between write its updates and take exactly what it deletes and the edges that name it |
| `LineageRuns.DropTakesExactly` | backend/store/column_lineage.go:610-650 | A statement deletion takes exactly those statements, their records and the edges they produced |
| `LineageRuns.OthersStand` | backend/store/column_lineage.go:716-740 | A commit cannot invalidate what another transaction checked under its lock |
| `LineageRuns.SkipIsSafeExactly` | backend/store/column_lineage.go:552-578 | Whatever the analyzer computes, the deliberate skip keeps the stored edges traceable if and only if there are none or the record already names the skipped definition |
| `LineageRuns.SkipKeepsOldEdges` | backend/store/column_lineage.go:552-578 | A view analyzed at one definition, redefined and then skipped, shows an edge of the old definition as current |
| `LineageStore.Store.ReplaceIfCurrent` | backend/store/column_lineage.go:521-550 | Replaces the edges and the record exactly when the object exists with the expected hash; otherwise reports gone or stale and changes nothing |
| `LineageStore.Store.MarkFailedIfCurrent` | backend/store/column_lineage.go:584-608 | Clears the edges and records the failure under the same guard |
| `LineageStore.Store.RecordError` | backend/store/column_lineage.go:756-768 | Leaves every edge and every recorded definition as it is, and a missing record missing |
| `LineageRuns.ErrorKeepsTraceable` | backend/store/column_lineage.go:756-768 | What keeps edges and recorded definitions, as recording an error does, neither breaks nor repairs traceability |
| `LineageStore.Store.DeleteByKeys` | backend/store/column_lineage.go:700-717 | An edge stays if and only if no deleted table, view, materialized or external table is its source or target and no deleted view its producer; exactly the deleted views' records go |
| `LineageStore.SplitLineageDeletions` | backend/store/column_lineage.go:671-681 | Endpoint types and producer types are separated, all other keys dropped |
| `EnvironmentSetting.Perform` | backend/store/environment.go:95-158 | Any sequence of creates, updates and deletes keeps ids and folded titles unique and colors in the palette; each succeeds exactly when it is valid and then does what it says, a failed one leaves nothing; an environment disappears only by a successful delete of its id, and one no operation names is the same to the end |
| `EnvironmentSetting.OnlyDeletedDisappears` | backend/store/environment_mutation.go:45-81 | One operation takes away exactly the id it deletes and leaves every environment it does not name as it is |
| `EnvironmentSetting.Setting.Create` | backend/store/environment_mutation.go:21-41 | Fails exactly on an empty title, a title equal under folding, or an unknown color; otherwise appends an environment with the first free id and keeps ids and folded titles unique |
| `EnvironmentSetting.Setting.Update` | backend/store/environment_mutation.go:45-72 | NotFound exactly for an unknown id, Conflict exactly when another environment comes first with the folded title, Invalid exactly for another bad patch; a refused update changes the setting exactly when the color is refused after a new title was written, and then only by that title; otherwise exactly the named fields change, and ids and folded titles stay unique |
| `EnvironmentSetting.TitleTakenExactly` | backend/store/environment_mutation.go:56-60 | While titles are unique, an update conflicts if and only if any other environment holds the folded title |
| `EnvironmentSetting.RefusedUpdateRetitles` | backend/store/environment_mutation.go:52-67 | A setting and a patch for which the refused update leaves its title behind |
| `EnvironmentSetting.Setting.Delete` | backend/store/environment_mutation.go:74-81 | Removes exactly the named environment |
| `EnvironmentSetting.Setting.UniqueID` | backend/store/environment_mutation.go:105-115 | The counter loop terminates and returns the first candidate that is free |
| `EnvironmentSlug.FewerTriedThanTaken` | backend/store/environment_mutation.go:111-113 | The candidates tried are pairwise different, so no more are taken than there are ids: the loop's measure |
| `EnvironmentSlug.DecimalIsNumber` | backend/store/environment_mutation.go:101-118 | The counter is written in decimal digits without leading zeros |
| `EnvironmentSlug.CandidatesDiffer` | backend/store/environment_mutation.go:111-113 | Different counters give different candidate ids |
| `EnvironmentSlug.SlugifyIsIdempotent` | backend/store/environment_mutation.go:117-134 | Slugs are runs of lower-case letters and digits joined by single dashes, slugify is the identity on them, and a slug is empty exactly when the title has no letter or digit |
| `EnvironmentSlug.Slugify` | backend/store/environment_mutation.go:120-134 | The builder loop yields the title's runs joined by dashes |
| `IamPolicy.PatchGrantsExactly` | backend/store/policy.go:223-254 | The patched member is in one binding of each requested role and in no other, if and only if no binding it is taken out of lists it twice |
| `IamPolicy.PatchKeepsOthers` | backend/store/policy.go:226-254 | Bindings keep place, role and condition, and every other member stays in order |
| `IamPolicy.PatchIsIdempotent` | backend/store/policy.go:226-254 | Patching twice is patching once |
| `IamPolicy.PatchRefusedExactly` | backend/store/policy.go:173-221 | A policy that binds allUsers to roles/workspaceMember only is refused a patch if and only if it would bind allUsers to another role |
| `IamPolicy.MissingRoles` | backend/store/policy.go:244-253 | Roles without a binding are appended once each |
| `IamPolicy.Policy.PatchBindings` | backend/store/policy.go:226-254 | The two loops over bindings and roles compute the patched policy |
| `IamPolicy.Policy.Patch` | backend/store/policy.go:173-221 | Stores the patched policy exactly when allUsers stays on the baseline role |
| `IamPolicy.Policy.Set` | backend/store/policy.go:98-143 | Stores a replacement exactly when it binds allUsers to the baseline role only and the etag is empty or current; a stored policy binds allUsers, and no outcome breaks the allUsers rule |
| `FrequencyGate.GateIsOptimal` | backend/store/quality_frequency.go:31-49 | No other choice of slots at least one tier period apart runs more often |
| `FrequencyGate.AdmittedIsSpaced` | backend/store/quality_frequency.go:31-75 | Admitted slots are at least one tier period apart |
| `FrequencyGate.EvenSlotsAdmitted` | backend/store/quality_frequency.go:31-75 | On evenly spaced slots the gate admits exactly every k-th one, k the period over the cadence rounded up |
| `FrequencyGate.EqualCadenceRunsAlways` | backend/store/quality_frequency.go:35-42 | A tier equal to the cadence, or none, runs in every slot |
| `FrequencyGate.MultipleOfCadence` | backend/store/quality_frequency.go:11-32 | A tier whose period is k cadences runs in exactly every k-th slot |
| `FrequencyGate.TiersOnSlots` | backend/store/quality_frequency.go:11-32 | On hourly slots the hourly tier runs always, the daily every 24th, the weekly every 168th; on daily slots the daily always and the weekly every 7th |
| `FrequencyGate.OtherTiersRunAlways` | backend/store/quality_frequency.go:19-32 | A tier that is none of the three runs in every slot |
| `FrequencyGate.EveryKthAt` | backend/store/quality_frequency.go:64-72 | The admitted slots are those at multiples of the period, as many as there are |
| `FrequencyGate.GateStaysAhead` | backend/store/quality_frequency.go:64-72 | The gate's k-th slot is no later than that of any other spaced choice |
| `FrequencyGate.OthersDoNotBlock` | backend/store/quality_frequency.go:64-72 | Whatever manual, unfinished and failed executions are stored at each slot, the same slots run as without them |
| `MigratorRuns.LifetimeKeepsSound` | backend/migrator/migrator.go:98-201 | Over any sequence of startups that die anywhere between transactions, with trees growing above the old latest version: the ledger ascends with its ids, the schema holds exactly the incrementals up to the recorded version, and a successful startup ends at the latest version with all of them |
| `MigratorRuns.AppliedOnce` | backend/migrator/migrator.go:371-405 | No version is recorded, and so no incremental applied, twice |
| `MigratorRuns.PendingKeepsSound` | backend/migrator/migrator.go:176-194 | Each incremental the loop applies is new to the schema, in ascending order, and a finished loop has applied them all |
| `MigratorRuns.StartupKeepsSound` | backend/migrator/migrator.go:98-201 | One startup on a sound database starts, dies, or refuses an incomplete baseline, and stays sound |
| `MigratorRuns.LateFileIsSkipped` | backend/migrator/migrator.go:177-179 | A file added at or below the recorded version is never applied |
| `Migrator.Instance.MigrateSchema` | backend/migrator/migrator.go:98-201 | Refuses a malformed or duplicated tree unchanged; otherwise does what one startup does, up to the transaction it dies in |
| `Migrator.Instance.ExecuteMigration` | backend/migrator/migrator.go:371-405 | The statement and its ledger row commit together or not at all |
| `Migrator.GetSortedVersionedFiles` | backend/migrator/migrator.go:275-321 | Succeeds exactly when every path parses and no version repeats, returning all files in ascending version order |
| `Migrator.LatestIsLatest` | backend/migrator/migrator.go:353-364 | The latest version is the newest of the tree's, floored at the baseline |
| `Migrator.ComputeLatestVersion` | backend/migrator/migrator.go:356-364 | The loop computes it |
| `OAuthGrants.RedeemedAtMostOnce` | backend/store/oauth_grant.go:47-57 | With fresh new digests, over every run each refresh digest is redeemed at most once |
| `OAuthGrants.NoTwoRedemptions` | backend/store/oauth_grant.go:48-57 | In no run do two steps redeem the same digest |
| `OAuthGrants.RedeemedWhereHandedOut` | backend/store/oauth_grant.go:48-57 | A step that redeems a digest presents the client to which an earlier step of the run handed it out |
| `OAuthGrants.Serve` | backend/store/oauth_grant.go:173-310 | Every call of the store is a step of the model, whatever its arguments, and leaves exactly the grants that step does |
| `OAuthGrants.GrantOverLife` | backend/store/oauth_grant.go:130-150 | Over every run a grant keeps id, client, user, kind, resource, scope and creation time, its first revocation with its revoker is permanent, and a revoked or expired grant stays so, its digest with it |
| `OAuthGrants.NeverLiveAgain` | backend/store/oauth_grant.go:73-85 | A grant that once was revoked, expired or gone is never live again |
| `OAuthGrants.RedeemedIsSpent` | backend/store/oauth_grant.go:47-57 | A redeemed digest opens no grant, whoever presents it |
| `OAuthGrants.StepKeepsInvariant` | backend/store/oauth_grant.go:37-96 | Every step keeps digests unique, recorded and unredeemed while stored |
| `OAuthGrants.Store.Rotate` | backend/store/oauth_grant.go:224-233 | Rotates exactly when some grant is the presenting client's, holds the presented digest, is not revoked and not expired; then that grant gets the new digest and expiry and nothing else changes, and a taken digest fails |
| `OAuthGrants.Store.Create` | backend/store/oauth_grant.go:173-187 | Stores the grant under a new id, defaulting the kind, unless its digest is taken |
| `OAuthGrants.Store.Revoke` | backend/store/oauth_grant.go:238-247 | Revokes a grant not yet revoked and reports whether it did; every grant keeps its identity and its first revocation |
| `OAuthGrants.Store.RevokeByUserAndClient` | backend/store/oauth_grant.go:252-272 | Afterwards no grant of the user and client is live at any time, every other pair's grants are live as before, and first revocations are kept |
| `OAuthGrants.Store.Touch` | backend/store/oauth_grant.go:288-298 | Changes no grant's liveness, identity or revocation, and after a write no call of the same window writes again |
| `OAuthGrants.Store.Get` | backend/store/oauth_grant.go:192-218 | Returns the client's grant with that digest, revoked or not, exactly when there is one |
| `OAuthGrants.Store.IsLive` | backend/store/oauth_grant.go:75-84 | An access token is accepted if and only if its grant is stored for its own user and client, not revoked and not expired |

## Left out

Of the modelled code:

- DatasetWorkload.Perform: assumes producers deliver input and output references only; the step results carry the exact condition.
- DatasetStore.Tables.Ingest: the counters of task rows, the registry mirror of runs and tasks, and the facet JSON columns of a reference are not modelled; a job goes by its task's GUID, so two jobs whose names build the same GUID, which the unique index on it refuses, are not modelled.
- DatasetStore.Tables.Prune: its statements run with no other transaction in between; what a run committed in between does is stated by the members named above. The reconciliation of task rows and the deletion of the mirrored registry rows are not modelled.
- DatasetStore.Tables.Sweep: the age and lock conditions on a row are one arbitrary set of candidates, since only rows without a stored reference go either way.
- TransactionLocks.IngestsAndPrunesNeverDeadlock: covers row locks on tasks, runs and datasets; locks on member rows are taken under their dataset's lock and are not modelled.
- LatePrunes.LatePruneNeverDeadlocksExactly: one prune with late runs at a time; any number of ingests and of other prunes beside it.
- CanonicalEncoding.MessageRoundTrip: lengths and counts are unbounded, where the code's fit 64 bits; floats are their bit patterns; the proto2 group kind has no values here.
- Fingerprint.CalcHashedBytes: SHA-256 is taken to be injective on the bytes it is fed, and protojson is not modelled.
- SanitizerRun.SanitizeProtoMap: keys that are not strings compare equal when sorted, so their order is arbitrary where the code uses their decimal text; messages are rewritten as values, so aliasing of the clone is not modelled.
- RateLimiter.Store.Allow: tokens and time are real numbers, so the rounding of the token bucket library is not modelled; the library itself is taken at its documented behaviour.
- MetaRegistry.Registry.BatchCreateAt: a failed batch is rolled back by its caller; batches are observed in order, as the schema sync does.
- MetaRegistry.Registry.BatchDeleteAt: the derived schema and schema-fingerprint tables are not modelled.
- MetaRegistry.Registry.ReadAsOf: filters, ordering by GUID, limit and offset are not modelled.
- DeliveryLeases.SentIsFinal: that dispatchers act within their lease is assumed here and for the one live holder; the statements do not enforce it, and SentStaysExactly says what happens without it.
- DeliveryLeases.StepKeepsSent: deleting a channel, which cascades to its deliveries, is not modelled.
- LineageRuns.AlwaysTraceable: the analyzer is a deterministic function of the definition, and a deliberate skip is a step of a run only where it is safe. Deleting a statement cleans by GUID, modelled by key because its GUID names no other object.
- EnvironmentSetting.Setting.Create: the color default's hash and Unicode's case and space tables are parameters.
- IamPolicy.Policy.Set: etags are given, not derived from update times.
- Migrator.Instance.MigrateSchema: parsing a path into a version is one optional result; the cumulative schema is taken to contain what the incrementals do, and an adopted schema to match the baseline.
- OAuthGrants.GrantOverLife: deleting a principal, which cascades to grants and clears revokers, is not modelled; new digests are fresh.

Of the repository:

- 32-bit and 64-bit overflow of stored counters, and timestamps finer than the database stores.
- PostgreSQL itself, HTTP and RPC wiring, caches, metrics, the CLI and the frontend.
- Plain create-read-update-delete stores, listings, search and display caps, which hold no deep property.
- Application SQL totals, whose sum does not survive the deletion of an application.
